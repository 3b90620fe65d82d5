/** The interval pump (src/core/pump.ts), serial mode, as a step machine over its entry points. */
module Pumps {
  import opened Prelude

  /** What `setTimeout` makes of a missing delay. */
  const UNDEFINED_DELAY_MS: nat := 1

  datatype Config = Config(intervalMs: nat, backoff: seq<nat>)

  /** A pending timer: its delay, and how many ticks had ended when it was armed. */
  datatype Timer = Timer(delayMs: nat, armedAfter: nat)

  /** `running` counts executing `onTick` calls, `outcomes` records how each ended; neither is
      read by a step. */
  datatype Pump = Pump(
    enabled: bool,
    stopped: bool,
    started: bool,
    processing: bool,
    consecutiveErrors: nat,
    timer: Option<Timer>,
    running: nat,
    outcomes: seq<bool>)

  datatype Event = Start | Stop | SetEnabled(next: bool) | RunNow | TimerFires | TickEnds(ok: bool)

  function NextDelayMs(cfg: Config, errors: nat): nat {
    if errors == 0 then cfg.intervalMs
    else if cfg.backoff == [] then UNDEFINED_DELAY_MS
    else cfg.backoff[Min(errors - 1, |cfg.backoff| - 1)]
  }

  function ArmNext(cfg: Config, p: Pump): Pump {
    if p.stopped || !p.enabled || p.timer.Some? then p
    else p.(timer := Some(Timer(NextDelayMs(cfg, p.consecutiveErrors), |p.outcomes|)))
  }

  /** The synchronous part of `tick`: a tick already in flight drops this one. */
  function Tick(p: Pump): Pump {
    if p.stopped || p.processing then p else p.(processing := true, running := p.running + 1)
  }

  function EndTick(cfg: Config, p: Pump, ok: bool): Pump
    requires p.running > 0
  {
    ArmNext(cfg, p.(consecutiveErrors := if ok then 0 else p.consecutiveErrors + 1,
                    processing := false,
                    running := p.running - 1,
                    outcomes := p.outcomes + [ok]))
  }

  function Initial(enabled: bool): Pump {
    Pump(enabled, false, false, false, 0, None, 0, [])
  }

  predicate Enabled(p: Pump, e: Event) {
    match e
    case TimerFires => p.timer.Some?
    case TickEnds(_) => p.running > 0
    case _ => true
  }

  function Next(cfg: Config, p: Pump, e: Event): Pump
    requires Enabled(p, e)
  {
    match e
    case Start => if p.started || p.stopped then p else ArmNext(cfg, p.(started := true))
    case Stop => p.(stopped := true, timer := None)
    case SetEnabled(next) =>
      if p.stopped || p.enabled == next then p
      else if next then ArmNext(cfg, p.(enabled := true))
      else p.(enabled := false, timer := None)
    case RunNow => Tick(p)
    case TimerFires => Tick(p.(timer := None))
    case TickEnds(ok) => EndTick(cfg, p, ok)
  }

  predicate Legal(cfg: Config, p: Pump, es: seq<Event>)
    decreases |es|
  {
    es == [] || (Enabled(p, es[0]) && Legal(cfg, Next(cfg, p, es[0]), es[1..]))
  }

  function Run(cfg: Config, p: Pump, es: seq<Event>): Pump
    requires Legal(cfg, p, es)
    decreases |es|
  {
    if es == [] then p else Run(cfg, Next(cfg, p, es[0]), es[1..])
  }

  /** The length of the current run of failures. */
  function TrailingFailures(outcomes: seq<bool>): nat {
    if outcomes == [] || outcomes[|outcomes| - 1] then 0 else 1 + TrailingFailures(outcomes[..|outcomes| - 1])
  }

  predicate Inv(cfg: Config, p: Pump) {
    && p.running == (if p.processing then 1 else 0)
    && (p.started && p.enabled && !p.stopped ==> p.timer.Some? || p.processing)
    && (p.stopped || !p.enabled ==> p.timer.None?)
    && p.consecutiveErrors == TrailingFailures(p.outcomes)
    && (p.timer.Some? ==>
          && p.timer.value.armedAfter <= |p.outcomes|
          && p.timer.value.delayMs == NextDelayMs(cfg, TrailingFailures(p.outcomes[..p.timer.value.armedAfter])))
  }

  lemma StepKeepsInv(cfg: Config, p: Pump, e: Event)
    requires Inv(cfg, p) && Enabled(p, e)
    ensures Inv(cfg, Next(cfg, p, e))
  {
    assert p.outcomes[..|p.outcomes|] == p.outcomes;
    if e.TickEnds? {
      var outcomes := p.outcomes + [e.ok];
      assert outcomes[..|p.outcomes|] == p.outcomes;
      assert outcomes[..|outcomes|] == outcomes;
      if p.timer.Some? {
        assert outcomes[..p.timer.value.armedAfter] == p.outcomes[..p.timer.value.armedAfter];
      }
    }
  }

  /** Over every interleaving of the entry points: at most one `onTick` runs; a started, enabled
      pump always has a timer or a tick in flight; a timer's delay is the interval or the clamped
      backoff for the run of failures at the time it was armed. */
  lemma {:induction false} RunKeepsInv(cfg: Config, p: Pump, es: seq<Event>)
    requires Inv(cfg, p) && Legal(cfg, p, es)
    ensures Inv(cfg, Run(cfg, p, es))
    decreases |es|
  {
    if es != [] {
      StepKeepsInv(cfg, p, es[0]);
      RunKeepsInv(cfg, Next(cfg, p, es[0]), es[1..]);
    }
  }

  lemma NeverStalls(cfg: Config, enabled: bool, es: seq<Event>)
    requires Legal(cfg, Initial(enabled), es)
    ensures
      var p := Run(cfg, Initial(enabled), es);
      && p.running <= 1
      && (p.started && p.enabled && !p.stopped ==> p.timer.Some? || p.running == 1)
      && p.consecutiveErrors == TrailingFailures(p.outcomes)
      && (p.timer.Some? ==>
            && p.timer.value.armedAfter <= |p.outcomes|
            && p.timer.value.delayMs == NextDelayMs(cfg, TrailingFailures(p.outcomes[..p.timer.value.armedAfter])))
  {
    RunKeepsInv(cfg, Initial(enabled), es);
  }

  function LastSetting(es: seq<Event>, enabled: bool): bool {
    if es == [] then enabled else LastSetting(es[1..], if es[0].SetEnabled? then es[0].next else enabled)
  }

  /** Until it is stopped a pump is enabled as it was last told. */
  lemma {:induction false} EnabledAsTold(cfg: Config, p: Pump, es: seq<Event>)
    requires Legal(cfg, p, es)
    ensures !Run(cfg, p, es).stopped ==> Run(cfg, p, es).enabled == LastSetting(es, p.enabled)
    decreases |es|
  {
    if es != [] {
      if p.stopped { StaysStopped(cfg, p, es); }
      EnabledAsTold(cfg, Next(cfg, p, es[0]), es[1..]);
    }
  }

  /** An event that sets an untouched pump going: arming never looks at `started`. */
  predicate Wakes(e: Event, enabled: bool) {
    e.Start? || e.RunNow? || e == SetEnabled(!enabled)
  }

  predicate Awake(p: Pump) {
    p.enabled && !p.stopped ==> p.timer.Some? || p.running == 1
  }

  lemma {:induction false} StaysAwake(cfg: Config, p: Pump, es: seq<Event>)
    requires Inv(cfg, p) && Awake(p) && Legal(cfg, p, es)
    ensures Awake(Run(cfg, p, es))
    decreases |es|
  {
    if es != [] {
      StepKeepsInv(cfg, p, es[0]);
      StaysAwake(cfg, Next(cfg, p, es[0]), es[1..]);
    }
  }

  lemma {:induction false} StaysStopped(cfg: Config, p: Pump, es: seq<Event>)
    requires p.stopped && Legal(cfg, p, es)
    ensures Run(cfg, p, es).stopped
    decreases |es|
  {
    if es != [] { StaysStopped(cfg, Next(cfg, p, es[0]), es[1..]); }
  }

  /** An enabled, unstopped pump is armed or running exactly when it was started, or run by hand,
      or toggled away from its initial setting. */
  lemma {:induction false} LiveIff(cfg: Config, enabled: bool, es: seq<Event>)
    requires Legal(cfg, Initial(enabled), es)
    ensures
      var p := Run(cfg, Initial(enabled), es);
      && (p.enabled && !p.stopped ==> (p.timer.Some? || p.running == 1 <==> exists i :: 0 <= i < |es| && Wakes(es[i], enabled)))
      && (p.timer.Some? ==> p.enabled && !p.stopped)
    decreases |es|
  {
    var start := Initial(enabled);
    RunKeepsInv(cfg, start, es);
    if es != [] {
      var next := Next(cfg, start, es[0]);
      StepKeepsInv(cfg, start, es[0]);
      if Wakes(es[0], enabled) {
        StaysAwake(cfg, next, es[1..]);
      } else if es[0].Stop? {
        StaysStopped(cfg, next, es[1..]);
      } else {
        assert next == start;
        LiveIff(cfg, enabled, es[1..]);
        assert forall i :: 0 <= i < |es| - 1 ==> es[1..][i] == es[i + 1];
        assert forall i :: 1 <= i < |es| ==> es[i] == es[1..][i - 1];
      }
    }
  }

  /** So a manual run arms a pump that was never started. */
  lemma ManualRunArmsUnstarted(cfg: Config)
    ensures
      var p := Next(cfg, Next(cfg, Initial(true), RunNow), TickEnds(true));
      !p.started && p.timer == Some(Timer(cfg.intervalMs, 1))
  {
  }

  /** After `stop` no tick starts and no timer is armed; a tick in flight may still end. */
  lemma {:induction false} StopIsTerminal(cfg: Config, p: Pump, es: seq<Event>)
    requires p.stopped && p.timer.None? && Legal(cfg, p, es)
    ensures
      var q := Run(cfg, p, es);
      q.stopped && q.timer.None? && q.running + |q.outcomes| == p.running + |p.outcomes|
    decreases |es|
  {
    if es != [] {
      StopIsTerminal(cfg, Next(cfg, p, es[0]), es[1..]);
    }
  }

  // ----- Stale delays -----

  lemma {:induction false} LegalSnoc(cfg: Config, p: Pump, es: seq<Event>, e: Event)
    requires Legal(cfg, p, es + [e])
    ensures Legal(cfg, p, es) && Enabled(Run(cfg, p, es), e)
    ensures Run(cfg, p, es + [e]) == Next(cfg, Run(cfg, p, es), e)
    decreases |es|
  {
    if es == [] {
      assert [] + [e] == [e] && [e][1..] == [];
    } else {
      assert (es + [e])[0] == es[0] && (es + [e])[1..] == es[1..] + [e];
      LegalSnoc(cfg, Next(cfg, p, es[0]), es[1..], e);
    }
  }

  /** After `j` events of a legal run a timer is pending. */
  predicate PendingAt(cfg: Config, p: Pump, es: seq<Event>, j: nat)
    requires j <= |es|
  {
    Legal(cfg, p, es[..j]) && Run(cfg, p, es[..j]).timer.Some?
  }

  /** Event `i` ended a tick while a timer was pending, and one has been pending ever since. */
  ghost predicate MissedAt(cfg: Config, p: Pump, es: seq<Event>, i: nat)
    requires i < |es|
  {
    es[i].TickEnds? && forall j :: i <= j <= |es| ==> PendingAt(cfg, p, es, j)
  }

  ghost predicate MissesATick(cfg: Config, p: Pump, es: seq<Event>) {
    exists i: nat :: i < |es| && MissedAt(cfg, p, es, i)
  }

  /** The pending timer was armed before the last tick ended. */
  predicate IsStale(p: Pump) {
    p.timer.Some? && p.timer.value.armedAfter != |p.outcomes|
  }

  lemma StepStale(cfg: Config, p: Pump, e: Event)
    requires Inv(cfg, p) && Enabled(p, e)
    ensures IsStale(Next(cfg, p, e)) <==>
              Next(cfg, p, e).timer.Some? && p.timer.Some? && (IsStale(p) || e.TickEnds?)
  {
  }

  lemma MissedExtends(cfg: Config, p: Pump, es: seq<Event>, e: Event, i: nat)
    requires Legal(cfg, p, es + [e]) && i <= |es|
    ensures
      MissedAt(cfg, p, es + [e], i) <==>
        Run(cfg, p, es + [e]).timer.Some? &&
        if i < |es| then MissedAt(cfg, p, es, i) else Legal(cfg, p, es) && Run(cfg, p, es).timer.Some? && e.TickEnds?
  {
    var longer := es + [e];
    LegalSnoc(cfg, p, es, e);
    assert longer[..|longer|] == longer && longer[..|es|] == es && es[..|es|] == es;
    forall j | 0 <= j <= |es|
      ensures PendingAt(cfg, p, longer, j) == PendingAt(cfg, p, es, j)
    {
      assert longer[..j] == es[..j];
    }
    assert PendingAt(cfg, p, longer, |longer|) == Run(cfg, p, longer).timer.Some?;
    assert PendingAt(cfg, p, longer, |es|) == Run(cfg, p, es).timer.Some?;
  }

  /** Over every run: the pending delay was computed before the last tick ended exactly when some
      tick ended while a timer was pending that is pending still.  Otherwise it is the current one. */
  lemma {:induction false} StaleIff(cfg: Config, p: Pump, es: seq<Event>)
    requires Inv(cfg, p) && !IsStale(p) && Legal(cfg, p, es)
    ensures
      var q := Run(cfg, p, es);
      && (IsStale(q) <==> MissesATick(cfg, p, es))
      && (q.timer.Some? && !IsStale(q) ==> q.timer.value.delayMs == NextDelayMs(cfg, q.consecutiveErrors))
    decreases |es|
  {
    RunKeepsInv(cfg, p, es);
    var q := Run(cfg, p, es);
    assert q.outcomes[..|q.outcomes|] == q.outcomes;
    if es != [] {
      var front, e := es[..|es| - 1], es[|es| - 1];
      assert es == front + [e];
      LegalSnoc(cfg, p, front, e);
      StaleIff(cfg, p, front);
      RunKeepsInv(cfg, p, front);
      StepStale(cfg, Run(cfg, p, front), e);
      forall i: nat | i <= |front|
        ensures MissedAt(cfg, p, es, i) <==>
                  q.timer.Some? && if i < |front| then MissedAt(cfg, p, front, i) else Run(cfg, p, front).timer.Some? && e.TickEnds?
      {
        MissedExtends(cfg, p, front, e, i);
      }
      if IsStale(Run(cfg, p, front)) && q.timer.Some? {
        var i: nat :| i < |front| && MissedAt(cfg, p, front, i);
        assert MissedAt(cfg, p, es, i);
      } else if IsStale(q) {
        assert MissedAt(cfg, p, es, |front|);
      }
    }
  }

  /** The last `k` ticks failed, and not the one before them. */
  predicate FailedLast(outcomes: seq<bool>, k: nat) {
    && k <= |outcomes|
    && (forall i :: |outcomes| - k <= i < |outcomes| ==> !outcomes[i])
    && (k < |outcomes| ==> outcomes[|outcomes| - k - 1])
  }

  lemma {:induction false} FailuresCounted(outcomes: seq<bool>, k: nat)
    requires FailedLast(outcomes, k)
    ensures TrailingFailures(outcomes) == k
    decreases k
  {
    if k > 0 {
      var front := outcomes[..|outcomes| - 1];
      assert forall i :: 0 <= i < |front| ==> front[i] == outcomes[i];
      FailuresCounted(front, k - 1);
    }
  }

  /** Over every run, a pending timer that no tick end has overtaken waits the plain interval after a
      success, the k-th backoff after k failures in a row, and the last backoff from then on.
      Without a backoff table `setTimeout` gets no delay, which is 1 ms. */
  lemma BackoffEscalates(cfg: Config, enabled: bool, es: seq<Event>, k: nat)
    requires Legal(cfg, Initial(enabled), es)
    requires var q := Run(cfg, Initial(enabled), es); q.timer.Some? && FailedLast(q.outcomes, k)
    requires !MissesATick(cfg, Initial(enabled), es)
    ensures Run(cfg, Initial(enabled), es).timer.value.delayMs ==
              if k == 0 then cfg.intervalMs
              else if cfg.backoff == [] then 1
              else if k <= |cfg.backoff| then cfg.backoff[k - 1]
              else cfg.backoff[|cfg.backoff| - 1]
  {
    var q := Run(cfg, Initial(enabled), es);
    RunKeepsInv(cfg, Initial(enabled), es);
    StaleIff(cfg, Initial(enabled), es);
    FailuresCounted(q.outcomes, k);
  }

  /** When a tick ends, the pending timer is current exactly when none was armed during the tick. */
  lemma TimerAfterTickIsCurrentIff(cfg: Config, p: Pump, ok: bool)
    requires Inv(cfg, p) && p.running > 0 && Next(cfg, p, TickEnds(ok)).timer.Some?
    ensures
      var q := Next(cfg, p, TickEnds(ok));
      && (q.timer.value.armedAfter == |q.outcomes| <==> p.timer.None?)
      && (p.timer.None? ==> q.timer.value.delayMs == NextDelayMs(cfg, q.consecutiveErrors))
      && (p.timer.Some? ==> q.timer == p.timer)
  {
  }

  /** So a manual run that fails leaves the plain interval in place instead of the backoff. */
  lemma FailedRunNowKeepsOldDelay(cfg: Config)
    requires cfg.backoff != [] && cfg.backoff[0] != cfg.intervalMs
    ensures
      var p := Next(cfg, Next(cfg, Next(cfg, Initial(true), Start), RunNow), TickEnds(false));
      && p.consecutiveErrors == 1
      && p.timer == Some(Timer(cfg.intervalMs, 0))
      && p.timer.value.delayMs != NextDelayMs(cfg, p.consecutiveErrors)
  {
  }

  predicate Scheduled(e: Event) {
    e.Start? || e.Stop? || e.TimerFires? || e.TickEnds?
  }

  /** No tick overlaps a pending timer, and that timer's delay is the current one. */
  predicate Punctual(cfg: Config, p: Pump) {
    && (!p.started ==> !p.processing && p.timer.None?)
    && (p.timer.Some? ==> !p.processing && p.timer.value.delayMs == NextDelayMs(cfg, p.consecutiveErrors))
  }

  /** Driven by its own timers only, a pump never waits for a stale delay and never drops a fire. */
  lemma {:induction false} ScheduledPumpIsPunctual(cfg: Config, p: Pump, es: seq<Event>)
    requires Inv(cfg, p) && Punctual(cfg, p) && Legal(cfg, p, es)
    requires forall i :: 0 <= i < |es| ==> Scheduled(es[i])
    ensures Punctual(cfg, Run(cfg, p, es))
    decreases |es|
  {
    if es != [] {
      assert Scheduled(es[0]);
      StepKeepsInv(cfg, p, es[0]);
      assert forall i :: 0 <= i < |es| - 1 ==> es[1..][i] == es[i + 1];
      ScheduledPumpIsPunctual(cfg, Next(cfg, p, es[0]), es[1..]);
    }
  }

  // ----- The pump object -----

  class PumpObject {
    const cfg: Config
    var enabled: bool
    var stopped: bool
    var started: bool
    var processing: bool
    var consecutiveErrors: nat
    /** The delay of the pending timer. */
    var timer: Option<nat>
    ghost var armedAfter: nat
    ghost var running: nat
    ghost var outcomes: seq<bool>

    ghost function View(): Pump
      reads this
    {
      var pending := if timer.Some? then Some(Timer(timer.value, armedAfter)) else None;
      Pump(enabled, stopped, started, processing, consecutiveErrors, pending, running, outcomes)
    }

    constructor (cfg: Config, enabled: bool)
      ensures View() == Initial(enabled) && this.cfg == cfg
    {
      this.cfg := cfg;
      this.enabled := enabled;
      stopped, started, processing, consecutiveErrors, timer := false, false, false, 0, None;
      running, outcomes, armedAfter := 0, [], 0;
    }

    method ArmTimer()
      modifies this`timer, this`armedAfter
      ensures View() == ArmNext(cfg, old(View()))
    {
      if stopped || !enabled {
        return;
      }
      if timer.Some? {
        return;
      }
      timer := Some(NextDelayMs(cfg, consecutiveErrors));
      armedAfter := |outcomes|;
    }

    method StartPump()
      modifies this
      ensures View() == Next(cfg, old(View()), Start)
    {
      if started || stopped {
        return;
      }
      started := true;
      ArmTimer();
    }

    method StopPump()
      modifies this
      ensures View() == Next(cfg, old(View()), Stop)
    {
      stopped := true;
      timer := None;
    }

    method Toggle(next: bool)
      modifies this
      ensures View() == Next(cfg, old(View()), SetEnabled(next))
    {
      if stopped || enabled == next {
        return;
      }
      enabled := next;
      if next {
        ArmTimer();
      } else {
        timer := None;
      }
    }

    /** Runs `onTick` up to its first suspension; `began` says whether this call started one. */
    method BeginTick() returns (began: bool)
      modifies this
      ensures View() == Tick(old(View()))
      ensures began <==> !old(stopped) && !old(processing)
    {
      if stopped || processing {
        return false;
      }
      processing := true;
      running := running + 1;
      return true;
    }

    method FireTimer() returns (began: bool)
      requires timer.Some?
      modifies this
      ensures View() == Next(cfg, old(View()), TimerFires)
    {
      timer := None;
      began := BeginTick();
    }

    /** `runNow`: a tick in flight is awaited instead of doubled. */
    method RunOnce() returns (began: bool)
      modifies this
      ensures View() == Next(cfg, old(View()), RunNow)
      ensures began <==> !old(stopped) && !old(processing)
    {
      if stopped || processing {
        return false;
      }
      began := BeginTick();
    }

    /** The `catch` and `finally` of a tick. */
    method FinishTick(ok: bool)
      requires running > 0
      modifies this
      ensures View() == Next(cfg, old(View()), TickEnds(ok))
    {
      if ok {
        consecutiveErrors := 0;
      } else {
        consecutiveErrors := consecutiveErrors + 1;
      }
      processing := false;
      running := running - 1;
      outcomes := outcomes + [ok];
      ArmTimer();
    }
  }
}
