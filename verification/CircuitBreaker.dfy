/** The provider circuit breaker (src/core/circuit-breaker.ts): the object with its mutable fields, and
    a reference that reads every answer off the history of admissions and outcomes.  Outcomes may
    arrive late and in any order, so the history is an arbitrary interleaving. */
module CircuitBreaker {
  import opened Collections

  datatype Health = Healthy | Degraded | Open | HalfOpen | Disabled

  datatype Config = Config(enabled: bool, threshold: nat, baseCooldownMs: nat, maxCooldownMs: nat)

  datatype State = State(health: Health, consecutiveFailures: nat, openCount: nat, cooldownMs: nat,
                         openUntil: Option<int>, trialInFlight: bool)

  /** The call `id` asks for admission, or its outcome is recorded. */
  datatype Step = Admit(id: nat, now: int) | Success(id: nat) | Failure(id: nat, now: int)

  function Pow2(n: nat): (r: nat)
    ensures r >= 1
  {
    if n == 0 then 1 else 2 * Pow2(n - 1)
  }

  // ---------- the transitions ----------

  function Initial(cfg: Config): State {
    State(if cfg.enabled then Healthy else Disabled, 0, 0, cfg.baseCooldownMs, None, false)
  }

  function Opened(cfg: Config, s: State, now: int): State {
    var cooldown := Smaller(cfg.maxCooldownMs, cfg.baseCooldownMs * Pow2(s.openCount));
    s.(health := Open, trialInFlight := false, openCount := s.openCount + 1, cooldownMs := cooldown,
       openUntil := Some(now + cooldown))
  }

  function Admission(cfg: Config, s: State, now: int): (State, bool) {
    if !cfg.enabled then (s, false)
    else if s.health == Open && s.openUntil.Some? && now < s.openUntil.value then (s, false)
    else
      var t := if s.health == Open then s.(health := HalfOpen, openUntil := None) else s;
      if t.health != HalfOpen then (t, true)
      else if t.trialInFlight then (t, false)
      else (t.(trialInFlight := true), true)
  }

  function Succeeded(cfg: Config, s: State): State {
    State(Healthy, 0, 0, cfg.baseCooldownMs, None, false)
  }

  function Failed(cfg: Config, s: State, now: int): State {
    var t := s.(consecutiveFailures := s.consecutiveFailures + 1, trialInFlight := false);
    if s.health == HalfOpen || t.consecutiveFailures >= cfg.threshold then Opened(cfg, t, now)
    else t.(health := Degraded)
  }

  function Apply(cfg: Config, s: State, step: Step): State {
    match step
    case Admit(_, now) => Admission(cfg, s, now).0
    case Success(_) => Succeeded(cfg, s)
    case Failure(_, now) => Failed(cfg, s, now)
  }

  function Run(cfg: Config, history: seq<Step>): State
    decreases |history|
  {
    if history == [] then Initial(cfg) else Apply(cfg, Run(cfg, history[..|history| - 1]), history[|history| - 1])
  }

  // ---------- the reference: everything read off the history ----------

  /** Failures since the last success. */
  function Streak(history: seq<Step>): nat
    decreases |history|
  {
    if history == [] then 0 else
    match history[|history| - 1]
    case Admit(_, _) => Streak(history[..|history| - 1])
    case Success(_) => 0
    case Failure(_, _) => Streak(history[..|history| - 1]) + 1
  }

  /** The failure that trips: the threshold, but at least the first. */
  function Limit(cfg: Config): (n: nat)
    ensures n >= 1
  {
    if cfg.threshold == 0 then 1 else cfg.threshold
  }

  predicate Tripped(cfg: Config, history: seq<Step>) {
    Streak(history) >= Limit(cfg)
  }

  /** Time of the last failure of the current streak. */
  function LastFailure(history: seq<Step>): int
    decreases |history|
  {
    if history == [] then 0 else
    match history[|history| - 1]
    case Admit(_, _) => LastFailure(history[..|history| - 1])
    case Success(_) => 0
    case Failure(_, now) => now
  }

  /** The cooldown doubles with every failure past the threshold, up to the maximum. */
  function Cooldown(cfg: Config, history: seq<Step>): nat {
    if Tripped(cfg, history) then
      Smaller(cfg.maxCooldownMs, cfg.baseCooldownMs * Pow2(Streak(history) - Limit(cfg)))
    else cfg.baseCooldownMs
  }

  function Deadline(cfg: Config, history: seq<Step>): int {
    LastFailure(history) + Cooldown(cfg, history)
  }

  /** A trial was granted since the last outcome. */
  predicate TrialOut(cfg: Config, history: seq<Step>)
    decreases |history|, 0
  {
    history != []
    && match history[|history| - 1]
       case Admit(_, now) =>
         var before := history[..|history| - 1];
         TrialOut(cfg, before) || (Tripped(cfg, before) && Granted(cfg, before, now))
       case _ => false
  }

  /** Who gets in: anyone while the circuit is closed; after a trip one caller per failure, and only
      once the cooldown that failure started is over. */
  predicate Granted(cfg: Config, history: seq<Step>, now: int)
    decreases |history|, 1
  {
    cfg.enabled && (!Tripped(cfg, history) || (!TrialOut(cfg, history) && now >= Deadline(cfg, history)))
  }

  function Expected(cfg: Config, history: seq<Step>): State {
    var streak := Streak(history);
    var openCount := if Tripped(cfg, history) then streak - Limit(cfg) + 1 else 0;
    if Tripped(cfg, history) then
      if TrialOut(cfg, history) then State(HalfOpen, streak, openCount, Cooldown(cfg, history), None, true)
      else State(Open, streak, openCount, Cooldown(cfg, history), Some(Deadline(cfg, history)), false)
    else State(if streak == 0 then Healthy else Degraded, streak, openCount, cfg.baseCooldownMs, None, false)
  }

  lemma HistoryStep(cfg: Config, history: seq<Step>, step: Step)
    ensures var after := history + [step];
            && Streak(after) == (match step
                                 case Admit(_, _) => Streak(history)
                                 case Success(_) => 0
                                 case Failure(_, _) => Streak(history) + 1)
            && LastFailure(after) == (match step
                                      case Admit(_, _) => LastFailure(history)
                                      case Success(_) => 0
                                      case Failure(_, now) => now)
            && TrialOut(cfg, after) ==
               (step.Admit? && (TrialOut(cfg, history) || (Tripped(cfg, history) && Granted(cfg, history, step.now))))
  {
    var after := history + [step];
    assert after[..|after| - 1] == history;
  }

  lemma StepMatches(cfg: Config, history: seq<Step>, step: Step)
    requires cfg.enabled
    ensures Apply(cfg, Expected(cfg, history), step) == Expected(cfg, history + [step])
    ensures step.Admit? ==> Admission(cfg, Expected(cfg, history), step.now).1 == Granted(cfg, history, step.now)
  {
    HistoryStep(cfg, history, step);
    match step
    case Admit(_, _) =>
    case Success(_) =>
    case Failure(_, _) =>
      assert Cooldown(cfg, history + [step]) ==
             if Tripped(cfg, history + [step])
             then Smaller(cfg.maxCooldownMs, cfg.baseCooldownMs * Pow2(Streak(history) + 1 - Limit(cfg)))
             else cfg.baseCooldownMs;
  }

  lemma {:induction false} RunIsExpected(cfg: Config, history: seq<Step>)
    requires cfg.enabled
    ensures Run(cfg, history) == Expected(cfg, history)
    decreases |history|
  {
    if history != [] {
      var before, step := history[..|history| - 1], history[|history| - 1];
      RunIsExpected(cfg, before);
      StepMatches(cfg, before, step);
      assert before + [step] == history;
    }
  }

  /** Main result.  For an enabled breaker and any interleaving of admissions and late outcomes, the
      mutable state is a function of the history: openCount is max(0, streak - limit + 1) where the limit
      is the threshold but at least one, the circuit is open or half-open exactly when the streak has
      reached the limit, half-open exactly while a trial is out, and the cooldown is
      min(max, base * 2^(openCount - 1)). */
  lemma {:induction false} BreakerIsItsHistory(cfg: Config, history: seq<Step>)
    requires cfg.enabled
    ensures Run(cfg, history) == Expected(cfg, history)
    ensures forall now :: Admission(cfg, Run(cfg, history), now).1 == Granted(cfg, history, now)
  {
    RunIsExpected(cfg, history);
    forall now ensures Admission(cfg, Run(cfg, history), now).1 == Granted(cfg, history, now) {
      StepMatches(cfg, history, Admit(0, now));
    }
  }

  /** The cooldown that the failure after this history starts. */
  function CooldownAfterFailure(cfg: Config, history: seq<Step>, id: nat, now: int): nat {
    Run(cfg, history + [Failure(id, now)]).cooldownMs
  }

  predicate IsLeast(n: nat, a: nat, b: nat) {
    n <= a && n <= b && (n == a || n == b)
  }

  lemma PowersDouble(base: nat, most: nat, k: nat)
    ensures Pow2(k + 1) == 2 * Pow2(k) && Pow2(0) == 1
    ensures Smaller(most, base * Pow2(k + 1)) == Smaller(most, 2 * Smaller(most, base * Pow2(k)))
  {
    assert base * Pow2(k + 1) == 2 * (base * Pow2(k));
  }

  /** Whatever happened before, the failure that trips the circuit starts the base cooldown, every further
      one twice the cooldown before it, neither more than the maximum; and nobody is let in before it
      is over. */
  lemma {:induction false} CooldownDoubles(cfg: Config, history: seq<Step>, id: nat, now: int, later: int)
    requires cfg.enabled
    ensures var next, s := CooldownAfterFailure(cfg, history, id, now), Run(cfg, history);
            && (s.openCount > 0 ==> IsLeast(next, cfg.maxCooldownMs, 2 * s.cooldownMs))
            && (s.openCount == 0 && s.consecutiveFailures + 1 >= cfg.threshold ==>
                  IsLeast(next, cfg.maxCooldownMs, cfg.baseCooldownMs))
            && (s.openCount > 0 || s.consecutiveFailures + 1 >= cfg.threshold ==>
                  (Admission(cfg, Run(cfg, history + [Failure(id, now)]), later).1 <==> later >= now + next))
  {
    var failure := Failure(id, now);
    BreakerIsItsHistory(cfg, history);
    BreakerIsItsHistory(cfg, history + [failure]);
    HistoryStep(cfg, history, failure);
    if Tripped(cfg, history) {
      PowersDouble(cfg.baseCooldownMs, cfg.maxCooldownMs, Streak(history) - Limit(cfg));
    }
  }

  /** Admissions granted since the circuit tripped. */
  function GrantsSinceTrip(cfg: Config, history: seq<Step>): nat
    decreases |history|
  {
    if history == [] then 0 else
    var before := history[..|history| - 1];
    match history[|history| - 1]
    case Admit(_, now) =>
      GrantsSinceTrip(cfg, before) + if Tripped(cfg, before) && Granted(cfg, before, now) then 1 else 0
    case Success(_) => 0
    case Failure(_, _) => GrantsSinceTrip(cfg, before)
  }

  /** Since a trip, fewer callers are let in than the circuit has opened, one more while a trial is
      out: every grant is paid for by a failure. */
  lemma {:induction false} GrantsArePaidFor(cfg: Config, history: seq<Step>)
    requires cfg.enabled
    ensures var s := Run(cfg, history);
            && (s.openCount > 0 ==> GrantsSinceTrip(cfg, history) <= s.openCount - if s.trialInFlight then 0 else 1)
            && (s.openCount == 0 ==> GrantsSinceTrip(cfg, history) == 0)
    decreases |history|
  {
    BreakerIsItsHistory(cfg, history);
    if history != [] {
      var before := history[..|history| - 1];
      GrantsArePaidFor(cfg, before);
      BreakerIsItsHistory(cfg, before);
    }
  }

  /** A disabled breaker admits nobody, whatever is recorded on it. */
  lemma DisabledAdmitsNobody(cfg: Config, history: seq<Step>, now: int)
    requires !cfg.enabled
    ensures Admission(cfg, Run(cfg, history), now) == (Run(cfg, history), false)
  {
  }

  // ---------- trials in flight ----------

  function Ids(history: seq<Step>): set<nat> {
    set i | 0 <= i < |history| :: history[i].id
  }

  /** The calls let in and not yet answered. */
  function InFlight(cfg: Config, history: seq<Step>): set<nat>
    decreases |history|
  {
    if history == [] then {} else
    var before := history[..|history| - 1];
    match history[|history| - 1]
    case Admit(id, now) => InFlight(cfg, before) + if Granted(cfg, before, now) then {id} else {}
    case Success(id) => InFlight(cfg, before) - {id}
    case Failure(id, _) => InFlight(cfg, before) - {id}
  }

  /** Every call asks once, and only a call that was let in has an outcome, one. */
  predicate Legal(cfg: Config, history: seq<Step>)
    decreases |history|
  {
    history == []
    || var before, step := history[..|history| - 1], history[|history| - 1];
       Legal(cfg, before) && if step.Admit? then step.id !in Ids(before) else step.id in InFlight(cfg, before)
  }

  /** The next call would be let in as a trial. */
  predicate TrialGranted(cfg: Config, history: seq<Step>, now: int) {
    Tripped(cfg, history) && Granted(cfg, history, now)
  }

  /** The trials let in and not yet answered. */
  function Trials(cfg: Config, history: seq<Step>): set<nat>
    decreases |history|
  {
    if history == [] then {} else
    var before := history[..|history| - 1];
    match history[|history| - 1]
    case Admit(id, now) => Trials(cfg, before) + if TrialGranted(cfg, before, now) then {id} else {}
    case Success(id) => Trials(cfg, before) - {id}
    case Failure(id, _) => Trials(cfg, before) - {id}
  }

  /** Since call t asked, the outcome of some other call was recorded. */
  predicate OtherAnswered(history: seq<Step>, t: nat)
    decreases |history|
  {
    history != []
    && var before, step := history[..|history| - 1], history[|history| - 1];
       if step.Admit? then step.id != t && OtherAnswered(before, t) else step.id != t || OtherAnswered(before, t)
  }

  /** Since call t asked, another trial was let in. */
  predicate LaterTrial(cfg: Config, history: seq<Step>, t: nat)
    decreases |history|
  {
    history != []
    && var before, step := history[..|history| - 1], history[|history| - 1];
       if step.Admit? then step.id != t && (TrialGranted(cfg, before, step.now) || LaterTrial(cfg, before, t))
       else LaterTrial(cfg, before, t)
  }

  lemma {:induction false} TrialsAsked(cfg: Config, history: seq<Step>)
    ensures Trials(cfg, history) <= Ids(history)
    decreases |history|
  {
    if history != [] {
      var before := history[..|history| - 1];
      TrialsAsked(cfg, before);
      assert forall i :: 0 <= i < |before| ==> before[i] == history[i];
    }
  }

  /** The flag of a trial in flight stays up until some other call is answered; it is then down until a
      later trial raises it again. */
  lemma {:induction false} TrialBlocks(cfg: Config, history: seq<Step>, t: nat)
    requires Legal(cfg, history) && t in Trials(cfg, history)
    ensures !OtherAnswered(history, t) ==> TrialOut(cfg, history)
    ensures OtherAnswered(history, t) && !LaterTrial(cfg, history, t) ==> !TrialOut(cfg, history)
    decreases |history|
  {
    var before, step := history[..|history| - 1], history[|history| - 1];
    assert before + [step] == history;
    HistoryStep(cfg, before, step);
    TrialsAsked(cfg, before);
    if t in Trials(cfg, before) {
      TrialBlocks(cfg, before, t);
    }
  }

  /** Main result.  While a trial is in flight no other is let in unless the outcome of some other call
      was recorded since; and once it was, and until another trial follows, the next call after the
      deadline of a tripped circuit is let in as a second trial. */
  lemma SecondTrialIff(cfg: Config, history: seq<Step>, t: nat, now: int)
    requires cfg.enabled && Legal(cfg, history) && t in Trials(cfg, history)
    ensures TrialGranted(cfg, history, now) ==> OtherAnswered(history, t)
    ensures !LaterTrial(cfg, history, t) && Tripped(cfg, history) && now >= Deadline(cfg, history) ==>
              (TrialGranted(cfg, history, now) <==> OtherAnswered(history, t))
  {
    TrialBlocks(cfg, history, t);
  }

  /** No outcome arrives late: while a trial is in flight, only its own is recorded. */
  predicate NoLateOutcome(cfg: Config, history: seq<Step>)
    decreases |history|
  {
    history == []
    || var before, step := history[..|history| - 1], history[|history| - 1];
       NoLateOutcome(cfg, before) && (step.Admit? || Trials(cfg, before) <= {step.id})
  }

  lemma {:induction false} NotLateNotOther(cfg: Config, history: seq<Step>, t: nat)
    requires Legal(cfg, history) && NoLateOutcome(cfg, history) && t in Trials(cfg, history)
    ensures !OtherAnswered(history, t)
    decreases |history|
  {
    var before, step := history[..|history| - 1], history[|history| - 1];
    if t in Trials(cfg, before) {
      NotLateNotOther(cfg, before, t);
    }
  }

  /** Main result.  Without late outcomes there is at most one trial in flight, as the design promises. */
  lemma {:induction false} OneTrialAtATime(cfg: Config, history: seq<Step>, a: nat, b: nat)
    requires cfg.enabled && Legal(cfg, history) && NoLateOutcome(cfg, history)
    requires a in Trials(cfg, history) && b in Trials(cfg, history)
    ensures a == b
    decreases |history|
  {
    var before, step := history[..|history| - 1], history[|history| - 1];
    if a in Trials(cfg, before) && b in Trials(cfg, before) {
      OneTrialAtATime(cfg, before, a, b);
    } else if a in Trials(cfg, before) {
      NotLateNotOther(cfg, before, a);
      SecondTrialIff(cfg, before, a, step.now);
    } else if b in Trials(cfg, before) {
      NotLateNotOther(cfg, before, b);
      SecondTrialIff(cfg, before, b, step.now);
    }
  }

  // ---------- a run with two trials in flight ----------

  /** n calls are let in at time 0, and the first m of them fail. */
  function Warm(n: nat, m: nat): seq<Step>
    decreases n + m
  {
    if m > 0 then Warm(n, m - 1) + [Failure(m - 1, 0)]
    else if n > 0 then Warm(n - 1, 0) + [Admit(n - 1, 0)]
    else []
  }

  lemma TrialStep(cfg: Config, before: seq<Step>, step: Step)
    ensures var after := before + [step];
            && Ids(after) == Ids(before) + {step.id}
            && InFlight(cfg, after) ==
               (if !step.Admit? then InFlight(cfg, before) - {step.id}
                else InFlight(cfg, before) + if Granted(cfg, before, step.now) then {step.id} else {})
            && Trials(cfg, after) ==
               (if !step.Admit? then Trials(cfg, before) - {step.id}
                else Trials(cfg, before) + if TrialGranted(cfg, before, step.now) then {step.id} else {})
            && (Legal(cfg, after) <==>
                  && Legal(cfg, before)
                  && if step.Admit? then step.id !in Ids(before) else step.id in InFlight(cfg, before))
  {
    var after := before + [step];
    assert after[..|before|] == before;
    assert after[|before|].id == step.id;
    assert forall i :: 0 <= i < |before| ==> after[i] == before[i];
  }

  /** What a warm-up of n calls and m failures leaves. */
  ghost predicate Warmed(cfg: Config, h: seq<Step>, n: nat, m: nat) {
    && Legal(cfg, h) && Trials(cfg, h) == {} && Streak(h) == m && !TrialOut(cfg, h)
    && (forall id: nat :: m <= id < n ==> id in InFlight(cfg, h))
    && (forall id :: id in Ids(h) ==> id < n)
  }

  lemma WarmAdmit(cfg: Config, h: seq<Step>, n: nat)
    requires cfg.enabled && Warmed(cfg, h, n, 0)
    ensures Warmed(cfg, h + [Admit(n, 0)], n + 1, 0)
  {
    HistoryStep(cfg, h, Admit(n, 0));
    TrialStep(cfg, h, Admit(n, 0));
  }

  lemma WarmFailure(cfg: Config, h: seq<Step>, n: nat, m: nat)
    requires m < n && Warmed(cfg, h, n, m)
    ensures Warmed(cfg, h + [Failure(m, 0)], n, m + 1)
  {
    HistoryStep(cfg, h, Failure(m, 0));
    TrialStep(cfg, h, Failure(m, 0));
  }

  lemma {:induction false} WarmUp(cfg: Config, n: nat, m: nat)
    requires cfg.enabled && m <= n
    ensures Warmed(cfg, Warm(n, m), n, m)
    decreases n + m
  {
    if m > 0 {
      WarmUp(cfg, n, m - 1);
      WarmFailure(cfg, Warm(n, m - 1), n, m - 1);
    } else if n > 0 {
      WarmUp(cfg, n - 1, 0);
      WarmAdmit(cfg, Warm(n - 1, 0), n - 1);
    }
  }

  /** After a history: a trial `a` is let in at the deadline, call `late` fails, and a trial `b` is let in at
      the new deadline. */
  function TwoTrials(cfg: Config, before: seq<Step>, late: nat, a: nat, b: nat): seq<Step> {
    var d := Deadline(cfg, before);
    var failed := before + [Admit(a, d)] + [Failure(late, d)];
    failed + [Admit(b, Deadline(cfg, failed))]
  }

  lemma {:induction false} TwoTrialsAreOut(cfg: Config, before: seq<Step>, n: nat, a: nat, b: nat)
    requires cfg.enabled && Limit(cfg) == n && a == n + 1 && b == n + 2 && Warmed(cfg, before, a, n)
    ensures Legal(cfg, TwoTrials(cfg, before, n, a, b)) && Trials(cfg, TwoTrials(cfg, before, n, a, b)) == {a, b}
  {
    var d := Deadline(cfg, before);
    var h1 := before + [Admit(a, d)];
    var h2 := h1 + [Failure(n, d)];
    assert n in InFlight(cfg, before);
    HistoryStep(cfg, before, Admit(a, d));
    TrialStep(cfg, before, Admit(a, d));
    HistoryStep(cfg, h1, Failure(n, d));
    TrialStep(cfg, h1, Failure(n, d));
    TrialStep(cfg, h2, Admit(b, Deadline(cfg, h2)));
  }

  /** One call more than the threshold is let in and all but the last fail, which trips the breaker; then the
      last one fails while a trial is out. */
  function LateFailure(cfg: Config): seq<Step> {
    var n := Limit(cfg);
    TwoTrials(cfg, Warm(n + 1, n), n, n + 1, n + 2)
  }

  /** One trial per half-open period is not one trial in flight: whatever the threshold and the cooldowns,
      a late failure ends in two. */
  lemma LateFailureAllowsSecondTrial(cfg: Config)
    requires cfg.enabled
    ensures Legal(cfg, LateFailure(cfg)) && Trials(cfg, LateFailure(cfg)) == {Limit(cfg) + 1, Limit(cfg) + 2}
  {
    var n := Limit(cfg);
    WarmUp(cfg, n + 1, n);
    TwoTrialsAreOut(cfg, Warm(n + 1, n), n, n + 1, n + 2);
  }

  // ---------- the breaker object ----------

  class Breaker {
    const cfg: Config
    var health: Health
    var successes: nat
    var failures: nat
    var consecutiveFailures: nat
    var openUntil: Option<int>
    var halfOpenTrialInFlight: bool
    var openCount: nat
    var currentCooldownMs: nat

    ghost function View(): State
      reads this
    {
      State(health, consecutiveFailures, openCount, currentCooldownMs, openUntil, halfOpenTrialInFlight)
    }

    constructor (cfg: Config)
      ensures View() == Initial(cfg) && this.cfg == cfg && successes == 0 && failures == 0
    {
      this.cfg := cfg;
      health := if cfg.enabled then Healthy else Disabled;
      successes, failures, consecutiveFailures, openCount := 0, 0, 0, 0;
      openUntil, halfOpenTrialInFlight, currentCooldownMs := None, false, cfg.baseCooldownMs;
    }

    method OpenCircuit(now: int)
      modifies this
      ensures View() == Opened(cfg, old(View()), now)
      ensures successes == old(successes) && failures == old(failures)
    {
      health := Open;
      halfOpenTrialInFlight := false;
      openCount := openCount + 1;
      var multiplier := Pow2(if openCount - 1 > 0 then openCount - 1 else 0);
      currentCooldownMs := Smaller(cfg.maxCooldownMs, cfg.baseCooldownMs * multiplier);
      openUntil := Some(now + currentCooldownMs);
    }

    method CanRun(now: int) returns (ok: bool)
      modifies this
      ensures (View(), ok) == Admission(cfg, old(View()), now)
      ensures successes == old(successes) && failures == old(failures)
    {
      if !cfg.enabled {
        return false;
      }
      if health == Open {
        if openUntil.Some? && now < openUntil.value {
          return false;
        }
        health := HalfOpen;
        openUntil := None;
      }
      if health == HalfOpen {
        if halfOpenTrialInFlight {
          return false;
        }
        halfOpenTrialInFlight := true;
        return true;
      }
      return true;
    }

    method RecordSuccess()
      modifies this
      ensures View() == Succeeded(cfg, old(View()))
      ensures successes == old(successes) + 1 && failures == old(failures)
    {
      successes := successes + 1;
      consecutiveFailures := 0;
      health := Healthy;
      openUntil := None;
      halfOpenTrialInFlight := false;
      openCount := 0;
      currentCooldownMs := cfg.baseCooldownMs;
    }

    method RecordFailure(now: int)
      modifies this
      ensures View() == Failed(cfg, old(View()), now)
      ensures successes == old(successes) && failures == old(failures) + 1
    {
      failures := failures + 1;
      consecutiveFailures := consecutiveFailures + 1;
      var wasHalfOpen := health == HalfOpen;
      halfOpenTrialInFlight := false;
      if wasHalfOpen || consecutiveFailures >= cfg.threshold {
        OpenCircuit(now);
      } else {
        health := Degraded;
      }
    }
  }
}
