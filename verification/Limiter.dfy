/** The access-attempt limiter of attempt_limiter.py, on whole seconds. */
module Limiter {
  import opened Ranges

  datatype Config = Config(maxFailures: nat, lockoutSeconds: nat)

  predicate ConfigOk(cfg: Config) {
    cfg.maxFailures >= 1 && cfg.lockoutSeconds >= 1
  }

  datatype AttemptState = AttemptState(failures: int, lockedUntil: int)

  type Table = map<string, AttemptState>

  datatype Decision = Decision(allowed: bool, waitSeconds: int)

  datatype Op =
    | Check(scope: string, at: nat)
    | Fail(scope: string, at: nat)
    | Succeed(scope: string, at: nat)

  function StateOf(t: Table, scope: string): AttemptState {
    if scope in t then t[scope] else AttemptState(0, 0)
  }

  function CheckStep(t: Table, scope: string, now: nat): (Table, Decision) {
    var s := StateOf(t, scope);
    if s.lockedUntil > now then (t, Decision(false, s.lockedUntil - now))
    else (if s.lockedUntil != 0 then t - {scope} else t, Decision(true, 0))
  }

  function FailStep(cfg: Config, t: Table, scope: string, now: nat): Table {
    var failures := StateOf(t, scope).failures + 1;
    t[scope := AttemptState(failures, if failures >= cfg.maxFailures then now + cfg.lockoutSeconds else 0)]
  }

  /** The new table, and the decision a check returns. */
  function Step(cfg: Config, t: Table, op: Op): (Table, Decision) {
    match op
    case Check(scope, at) => CheckStep(t, scope, at)
    case Fail(scope, at) => (FailStep(cfg, t, scope, at), Decision(true, 0))
    case Succeed(scope, _) => (t - {scope}, Decision(true, 0))
  }

  class AttemptLimiter {
    const cfg: Config
    var states: Table

    constructor (cfg: Config)
      ensures this.cfg == cfg && states == map[]
    {
      this.cfg, states := cfg, map[];
    }

    method CheckScope(scope: string, now: nat) returns (decision: Decision)
      modifies this
      ensures (states, decision) == Step(cfg, old(states), Check(scope, now))
    {
      var s := StateOf(states, scope);
      if s.lockedUntil > now {
        return Decision(false, s.lockedUntil - now);
      }
      if s.lockedUntil != 0 {
        states := states - {scope};
      }
      return Decision(true, 0);
    }

    method RecordFailure(scope: string, now: nat)
      modifies this
      ensures states == Step(cfg, old(states), Fail(scope, now)).0
    {
      var failures := StateOf(states, scope).failures + 1;
      var lockedUntil := 0;
      if failures >= cfg.maxFailures {
        lockedUntil := now + cfg.lockoutSeconds;
      }
      states := states[scope := AttemptState(failures, lockedUntil)];
    }

    method RecordSuccess(scope: string, now: nat)
      modifies this
      ensures states == Step(cfg, old(states), Succeed(scope, now)).0
    {
      states := states - {scope};
    }
  }

  // ---- waiting ----

  /** A denial names the first second at which the scope is allowed again, with its failures spent. */
  lemma WaitIsExact(t: Table, scope: string, now: nat)
    requires !CheckStep(t, scope, now).1.allowed
    ensures var wait := CheckStep(t, scope, now).1.waitSeconds;
            && wait > 0
            && (forall later: nat | now <= later < now + wait ::
                CheckStep(t, scope, later) == (t, Decision(false, now + wait - later)))
            && CheckStep(t, scope, now + wait) == (t - {scope}, Decision(true, 0))
  {
  }

  function FailAt(cfg: Config, t: Table, scope: string, times: seq<nat>): Table
    decreases |times|
  {
    if times == [] then t else FailAt(cfg, FailStep(cfg, t, scope, times[0]), scope, times[1..])
  }

  /** After a served lockout a scope survives maxFailures - 1 failures, and the next one locks it. */
  lemma {:induction false} AllowanceRestored(cfg: Config, t: Table, scope: string, now: nat, times: seq<nat>)
    requires ConfigOk(cfg) && StateOf(t, scope).lockedUntil != 0 && CheckStep(t, scope, now).1.allowed
    requires |times| == cfg.maxFailures
    ensures forall k, later: nat | 0 <= k < |times| ::
              CheckStep(FailAt(cfg, CheckStep(t, scope, now).0, scope, times[..k]), scope, later).1.allowed
    ensures StateOf(FailAt(cfg, CheckStep(t, scope, now).0, scope, times), scope).lockedUntil
            == times[|times| - 1] + cfg.lockoutSeconds
  {
    var served := CheckStep(t, scope, now).0;
    forall k, later: nat | 0 <= k < |times|
      ensures CheckStep(FailAt(cfg, served, scope, times[..k]), scope, later).1.allowed
    {
      FailuresAdd(cfg, served, scope, times[..k]);
    }
    var n := |times| - 1;
    FailuresAdd(cfg, served, scope, times[..n]);
    FailAtLast(cfg, served, scope, times);
  }

  lemma {:induction false} FailuresAdd(cfg: Config, t: Table, scope: string, times: seq<nat>)
    requires StateOf(t, scope).failures >= 0 && StateOf(t, scope).failures + |times| < cfg.maxFailures
    requires StateOf(t, scope).lockedUntil == 0
    ensures StateOf(FailAt(cfg, t, scope, times), scope) == AttemptState(StateOf(t, scope).failures + |times|, 0)
    decreases |times|
  {
    if times != [] {
      FailuresAdd(cfg, FailStep(cfg, t, scope, times[0]), scope, times[1..]);
    }
  }

  lemma {:induction false} FailAtLast(cfg: Config, t: Table, scope: string, times: seq<nat>)
    requires times != []
    ensures FailAt(cfg, t, scope, times)
         == FailStep(cfg, FailAt(cfg, t, scope, times[..|times| - 1]), scope, times[|times| - 1])
    decreases |times|
  {
    if |times| > 1 {
      FailAtLast(cfg, FailStep(cfg, t, scope, times[0]), scope, times[1..]);
      assert times[1..][..|times| - 2] == times[..|times| - 1][1..];
    }
  }

  // ---- the lockout bound ----

  function After(cfg: Config, trace: seq<Op>): Table {
    if trace == [] then map[] else Step(cfg, After(cfg, trace[..|trace| - 1]), trace[|trace| - 1]).0
  }

  /** Scopes whose last operation is a check that allowed them. */
  function Cleared(cfg: Config, trace: seq<Op>): set<string> {
    if trace == [] then {}
    else
      var before, last := trace[..|trace| - 1], trace[|trace| - 1];
      var allowed := last.Check? && CheckStep(After(cfg, before), last.scope, last.at).1.allowed;
      if allowed then Cleared(cfg, before) + {last.scope}
      else Cleared(cfg, before) - {last.scope}
  }

  /** A serial run: the clock never steps back and every failure follows an allowed check of its scope. */
  predicate Serial(cfg: Config, trace: seq<Op>) {
    trace == []
    || (var before, last := trace[..|trace| - 1], trace[|trace| - 1];
        && Serial(cfg, before)
        && (before != [] ==> before[|before| - 1].at <= last.at)
        && (last.Fail? ==> last.scope in Cleared(cfg, before)))
  }

  /** When the scope failed since its last success. */
  function FailTimes(trace: seq<Op>, scope: string): seq<int> {
    if trace == [] then []
    else
      var before, last := FailTimes(trace[..|trace| - 1], scope), trace[|trace| - 1];
      if last.scope != scope || last.Check? then before
      else if last.Succeed? then []
      else before + [last.at]
  }

  function Clock(trace: seq<Op>): int {
    if trace == [] then 0 else trace[|trace| - 1].at
  }

  predicate Sorted(f: seq<int>) {
    forall i, j | 0 <= i <= j < |f| :: f[i] <= f[j]
  }

  /** Failures maxFailures apart are at least a lockout apart. */
  predicate Spaced(cfg: Config, f: seq<int>) {
    forall i, j | 0 <= i && i + cfg.maxFailures <= j < |f| :: f[i] + cfg.lockoutSeconds <= f[j]
  }

  /** The state counts the current batch; every earlier failure is a served lockout old. */
  predicate ScopeInv(cfg: Config, s: AttemptState, f: seq<int>, clock: int, cleared: bool) {
    && 0 <= s.failures <= |f| && s.failures <= cfg.maxFailures
    && Sorted(f) && Spaced(cfg, f)
    && (forall i | 0 <= i < |f| :: 0 <= f[i] <= clock)
    && (forall i | 0 <= i < |f| - s.failures :: f[i] + cfg.lockoutSeconds <= clock)
    && (if s.failures == cfg.maxFailures && f != [] then s.lockedUntil == f[|f| - 1] + cfg.lockoutSeconds
        else s.lockedUntil == 0)
    && (cleared ==> s.failures < cfg.maxFailures)
  }

  lemma CheckKeepsInv(cfg: Config, t: Table, scope: string, f: seq<int>, clock: int, cleared: bool, at: nat)
    requires ConfigOk(cfg) && ScopeInv(cfg, StateOf(t, scope), f, clock, cleared) && clock <= at
    ensures var next := CheckStep(t, scope, at);
            ScopeInv(cfg, StateOf(next.0, scope), f, at, next.1.allowed)
  {
  }

  lemma FailKeepsInv(cfg: Config, t: Table, scope: string, f: seq<int>, clock: int, at: nat)
    requires ConfigOk(cfg) && ScopeInv(cfg, StateOf(t, scope), f, clock, true) && clock <= at
    ensures ScopeInv(cfg, StateOf(FailStep(cfg, t, scope, at), scope), f + [at as int], at, false)
  {
    var s, longer := StateOf(t, scope), f + [at as int];
    forall i, j | 0 <= i && i + cfg.maxFailures <= j < |longer| ensures longer[i] + cfg.lockoutSeconds <= longer[j] {
      if j == |f| {
        assert i < |f| - s.failures;
      }
    }
  }

  lemma LaterKeepsInv(cfg: Config, s: AttemptState, f: seq<int>, clock: int, cleared: bool, at: int)
    requires ScopeInv(cfg, s, f, clock, cleared) && clock <= at
    ensures ScopeInv(cfg, s, f, at, cleared)
  {
  }

  lemma {:induction false} RunInv(cfg: Config, trace: seq<Op>, scope: string)
    requires ConfigOk(cfg) && Serial(cfg, trace)
    ensures ScopeInv(cfg, StateOf(After(cfg, trace), scope), FailTimes(trace, scope), Clock(trace),
                     scope in Cleared(cfg, trace))
  {
    if trace != [] {
      hide ScopeInv, CheckStep, FailStep;
      var before, last := trace[..|trace| - 1], trace[|trace| - 1];
      RunInv(cfg, before, scope);
      var t, f, clock := After(cfg, before), FailTimes(before, scope), Clock(before);
      if last.scope != scope {
        OtherScope(cfg, t, last, scope);
        LaterKeepsInv(cfg, StateOf(t, scope), f, clock, scope in Cleared(cfg, before), last.at);
      } else if last.Check? {
        CheckKeepsInv(cfg, t, scope, f, clock, scope in Cleared(cfg, before), last.at);
      } else if last.Fail? {
        FailKeepsInv(cfg, t, scope, f, clock, last.at);
      } else {
        NoFailures(cfg, last.at);
      }
    } else {
      NoFailures(cfg, 0);
    }
  }

  lemma OtherScope(cfg: Config, t: Table, op: Op, scope: string)
    requires op.scope != scope
    ensures StateOf(Step(cfg, t, op).0, scope) == StateOf(t, scope)
  {
  }

  lemma NoFailures(cfg: Config, clock: int)
    requires ConfigOk(cfg)
    ensures ScopeInv(cfg, AttemptState(0, 0), [], clock, false)
  {
  }

  /** In every serial run each scope's failures since its last success are spaced by the lockout. */
  lemma LockoutSpacesFailures(cfg: Config, trace: seq<Op>, scope: string)
    requires ConfigOk(cfg) && Serial(cfg, trace)
    ensures Sorted(FailTimes(trace, scope)) && Spaced(cfg, FailTimes(trace, scope))
  {
    RunInv(cfg, trace, scope);
  }

  ghost function InWindow(f: seq<int>, from: int, length: int): set<int> {
    set i | 0 <= i < |f| && from <= f[i] < from + length
  }

  /** No window as long as the lockout holds more than maxFailures failures without a success. */
  lemma LockoutBound(cfg: Config, trace: seq<Op>, scope: string, from: int)
    requires ConfigOk(cfg) && Serial(cfg, trace)
    ensures |InWindow(FailTimes(trace, scope), from, cfg.lockoutSeconds)| <= cfg.maxFailures
  {
    LockoutSpacesFailures(cfg, trace, scope);
    var f := FailTimes(trace, scope);
    var w := InWindow(f, from, cfg.lockoutSeconds);
    var first := 0;
    while first < |f| && first !in w
      invariant 0 <= first <= |f| && forall i | 0 <= i < first :: i !in w
    {
      first := first + 1;
    }
    var range := Range(first, cfg.maxFailures);
    forall i | i in w ensures i in range {
      assert first in w && first <= i;
    }
    SubsetSize(w, range);
  }

  // ---- when a check is denied ----

  /** The failures since the last success come in whole batches but for those the state still counts. */
  ghost predicate Batched(cfg: Config, s: AttemptState, f: seq<int>) {
    exists batches: nat :: |f| == s.failures + Times(batches, cfg.maxFailures)
  }

  function Times(k: nat, m: nat): nat {
    if k == 0 then 0 else m + Times(k - 1, m)
  }

  lemma {:induction false} TimesMod(r: nat, k: nat, m: nat)
    requires r < m
    ensures (r + Times(k, m)) % m == r
  {
    if k > 0 {
      TimesMod(r, k - 1, m);
      AddMod(r + Times(k - 1, m), m);
    } else {
      UniqueMod(0, r, m);
    }
  }

  lemma AddMod(x: nat, m: nat)
    requires m > 0
    ensures (x + m) % m == x % m
  {
    var q, r := x / m, x % m;
    assert x + m == (q + 1) * m + r;
    UniqueMod(q + 1, r, m);
  }

  lemma UniqueMod(q: nat, r: nat, m: nat)
    requires r < m
    ensures (q * m + r) % m == r
  {
    var x := q * m + r;
    var p, s := x / m, x % m;
    assert (q - p) * m == s - r && (p - q) * m == r - s;
    if q - p >= 1 {
      AtLeast(q - p, m);
    } else if p - q >= 1 {
      AtLeast(p - q, m);
    }
  }

  lemma AtLeast(a: nat, m: nat)
    requires a >= 1
    ensures a * m >= m
  {
    assert a * m == m + (a - 1) * m;
  }

  lemma CheckKeepsBatched(cfg: Config, t: Table, scope: string, f: seq<int>, clock: int, cleared: bool, at: nat)
    requires ConfigOk(cfg) && ScopeInv(cfg, StateOf(t, scope), f, clock, cleared) && Batched(cfg, StateOf(t, scope), f)
    ensures Batched(cfg, StateOf(CheckStep(t, scope, at).0, scope), f)
  {
    var s, next := StateOf(t, scope), StateOf(CheckStep(t, scope, at).0, scope);
    if next != s {
      var batches: nat :| |f| == s.failures + Times(batches, cfg.maxFailures);
      assert |f| == next.failures + Times(batches + 1, cfg.maxFailures);
    }
  }

  lemma FailKeepsBatched(cfg: Config, t: Table, scope: string, f: seq<int>, at: nat)
    requires Batched(cfg, StateOf(t, scope), f)
    ensures Batched(cfg, StateOf(FailStep(cfg, t, scope, at), scope), f + [at as int])
  {
    var batches: nat :| |f| == StateOf(t, scope).failures + Times(batches, cfg.maxFailures);
    assert |f + [at as int]| == StateOf(FailStep(cfg, t, scope, at), scope).failures + Times(batches, cfg.maxFailures);
  }

  lemma {:induction false} RunBatched(cfg: Config, trace: seq<Op>, scope: string)
    requires ConfigOk(cfg) && Serial(cfg, trace)
    ensures Batched(cfg, StateOf(After(cfg, trace), scope), FailTimes(trace, scope))
  {
    hide ScopeInv, CheckStep, FailStep;
    if trace == [] {
      assert |FailTimes(trace, scope)| == 0 + Times(0, cfg.maxFailures);
    } else {
      var before, last := trace[..|trace| - 1], trace[|trace| - 1];
      RunBatched(cfg, before, scope);
      RunInv(cfg, before, scope);
      var t, f := After(cfg, before), FailTimes(before, scope);
      if last.scope != scope {
        OtherScope(cfg, t, last, scope);
      } else if last.Check? {
        CheckKeepsBatched(cfg, t, scope, f, Clock(before), scope in Cleared(cfg, before), last.at);
      } else if last.Fail? {
        FailKeepsBatched(cfg, t, scope, f, last.at);
      } else {
        assert |FailTimes(trace, scope)| == 0 + Times(0, cfg.maxFailures);
      }
    }
  }

  /**
   In every serial run a check is denied exactly when the failures since the scope's last
   success end a batch of maxFailures and the last of them is less than a lockout ago, and
   the wait it names is what is left of that lockout.
   */
  lemma DeniedExactly(cfg: Config, trace: seq<Op>, scope: string, now: nat)
    requires ConfigOk(cfg) && Serial(cfg, trace) && Clock(trace) <= now
    ensures var f := FailTimes(trace, scope);
            var decision := CheckStep(After(cfg, trace), scope, now).1;
            && (decision.allowed
                <==> |f| == 0 || |f| % cfg.maxFailures != 0 || f[|f| - 1] + cfg.lockoutSeconds <= now)
            && decision.waitSeconds == (if decision.allowed then 0 else f[|f| - 1] + cfg.lockoutSeconds - now)
  {
    hide Serial, After, FailTimes;
    RunInv(cfg, trace, scope);
    RunBatched(cfg, trace, scope);
    var s, f := StateOf(After(cfg, trace), scope), FailTimes(trace, scope);
    var batches: nat :| |f| == s.failures + Times(batches, cfg.maxFailures);
    if s.failures < cfg.maxFailures {
      TimesMod(s.failures, batches, cfg.maxFailures);
    } else {
      assert |f| == 0 + Times(batches + 1, cfg.maxFailures);
      TimesMod(0, batches + 1, cfg.maxFailures);
    }
  }
}
