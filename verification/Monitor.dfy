/**
 The monitor: periodic checkpoints at an interval that depends on run time, failure detection
 through /proc, and restore.  Time is in whole seconds and only ticks move it.
 */
module Monitor {
  import opened Wrappers

  type Pid = nat

  /** A dead process "exists", that is, has a /proc entry, until its parent or tracer waits for it. */
  datatype Life = Running | Zombie | Gone

  datatype Config = Config(base: int, period: int, autoRestore: bool)

  /** What ulcr_load_config accepts. */
  predicate Accepted(c: Config) {
    c.base >= 1 && c.period >= 1
  }

  /** How the target fares in a checkpoint attempt that finds it running. */
  datatype Fate =
    | Survives
    | Reaped      // dies between PTRACE_ATTACH and waitpid: the attempt fails, and the wait collects it
                  // if the manager is its parent; another parent still has to wait
    | DiesStopped // killed while stopped: the manager is its tracer and does not wait again

  /** Everything that the environment decides about one tick. */
  datatype Tick = Tick(
    crashes: bool,             // the watched process dies before this tick
    collected: bool,           // its parent, if that is not the monitor, has waited for it
    runtime: Option<real>,     // ulcr_get_process_runtime_seconds of the watched process
    saves: bool,               // an attempted checkpoint of a running process succeeds
    fate: Fate,
    restored: Option<Pid>,     // the pid ulcr_restore_latest returns, if it succeeds
    childRuntime: Option<real>)

  /** The monitor's variables, the processes, and counters of what happened. */
  datatype Mon = Mon(
    pid: Pid, last: int, interval: int, now: int,
    lives: map<Pid, Life>, children: set<Pid>,
    checkpoints: nat, restores: nat,
    failures: nat,   // failed attempts since the last checkpoint or restore
    reaps: nat)      // own children collected by the wait of an attach

  // ---- The interval ----

  /** compute_dynamic_checkpoint_interval */
  function Interval(base: int, runtime: Option<real>): (r: int)
    requires base >= 1
    ensures 1 <= r <= base
  {
    if runtime.None? then base
    else if runtime.value >= 300.0 then
      if base > 3 then (if base / 3 > 0 then base / 3 else 1) else base
    else if runtime.value >= 60.0 then
      if base > 2 then base / 2 else 1
    else base
  }

  /** The interval never grows with run time exactly if the configured one is not 2 or 3. */
  lemma IntervalAntitoneIff(base: int)
    requires base >= 1
    ensures (forall r, s: real :: r <= s ==> Interval(base, Some(s)) <= Interval(base, Some(r))) <==>
      base != 2 && base != 3
  {
    if base == 2 || base == 3 {
      assert Interval(base, Some(60.0)) == 1 && Interval(base, Some(300.0)) == base;
      assert 60.0 <= 300.0 && !(Interval(base, Some(300.0)) <= Interval(base, Some(60.0)));
    }
  }

  // ---- One tick ----

  /** What happens to the watched process between ticks. */
  function Pass(m: Mon, t: Tick): Life
    requires m.pid in m.lives
  {
    var life := if m.lives[m.pid].Running? && t.crashes then Zombie else m.lives[m.pid];
    if life.Zombie? && t.collected && m.pid !in m.children then Gone else life
  }

  /** The part of a tick that finds no process. */
  function Recover(m: Mon, c: Config, t: Tick): Mon
    requires Accepted(c)
  {
    if c.autoRestore && t.restored.Some? then
      var child := t.restored.value;
      m.(pid := child, last := m.now, interval := Interval(c.base, t.childRuntime),
         lives := m.lives[child := Running], children := m.children + {child},
         restores := m.restores + 1, failures := 0)
    else m
  }

  /** What an attempt on the running process makes of it. */
  function AfterAttempt(m: Mon, t: Tick): Life {
    match t.fate
    case Survives => Running
    case Reaped => if m.pid in m.children then Gone else Zombie
    case DiesStopped => Zombie
  }

  /** The part of a tick that finds a process; a zombie cannot be attached. */
  function Watch(m: Mon, c: Config, t: Tick): Mon
    requires Accepted(c) && m.pid in m.lives
  {
    var m' := m.(interval := Interval(c.base, t.runtime));
    if m.now - m.last < m'.interval then m'
    else if !m.lives[m.pid].Running? then m'.(failures := m.failures + 1)
    else
      var lives := m.lives[m.pid := AfterAttempt(m, t)];
      if t.saves && !t.fate.Reaped? then
        m'.(lives := lives, last := m.now, checkpoints := m.checkpoints + 1, failures := 0)
      else
        m'.(lives := lives, failures := m.failures + 1,
            reaps := m.reaps + if t.fate.Reaped? && m.pid in m.children then 1 else 0)
  }

  function OneTick(m: Mon, c: Config, t: Tick): Mon
    requires Accepted(c) && m.pid in m.lives
  {
    var m' := m.(now := m.now + c.period, lives := m.lives[m.pid := Pass(m, t)]);
    if m'.lives[m.pid].Gone? then Recover(m', c, t) else Watch(m', c, t)
  }

  /** The monitor after the ticks. */
  function RunTicks(m: Mon, c: Config, ticks: seq<Tick>): (r: Mon)
    requires Accepted(c) && m.pid in m.lives
    ensures r.pid in r.lives
  {
    if ticks == [] then m
    else OneTick(RunTicks(m, c, ticks[..|ticks| - 1]), c, ticks[|ticks| - 1])
  }

  /** What the monitor finds when it starts: a process that is not its child. */
  function Started(pid: Pid, life: Life, c: Config, now: int): Mon {
    Mon(pid, 0, c.period, now, map[pid := life], {}, 0, 0, 0, 0)
  }

  /**
   ulcr_monitor_loop, until the read of the timer fails after `|ticks|` ticks; `pidFile` and
   `timerOk` are what read_pid_from_file and the timer calls give.
   */
  method MonitorLoop(c: Config, pidFile: Option<Pid>, timerOk: bool, life: Life, start: int, ticks: seq<Tick>)
    returns (code: int, final: Option<Mon>)
    requires Accepted(c)
    ensures code == -1
    ensures final.Some? <==> pidFile.Some? && timerOk
    ensures final.Some? ==> final.value == RunTicks(Started(pidFile.value, life, c, start), c, ticks)
  {
    code, final := -1, None;
    if pidFile.None? || !timerOk {
      return;
    }
    var m := Started(pidFile.value, life, c, start);
    var pid, lastCheckpoint, currentInterval := m.pid, m.last, m.interval;
    var i := 0;
    while i < |ticks|
      invariant i <= |ticks|
      invariant m == RunTicks(Started(pidFile.value, life, c, start), c, ticks[..i])
      invariant pid == m.pid && lastCheckpoint == m.last && currentInterval == m.interval
    {
      var t := ticks[i];
      assert ticks[..i + 1][..i] == ticks[..i];
      m := m.(now := m.now + c.period, lives := m.lives[pid := Pass(m, t)]);
      i := i + 1;
      if m.lives[pid].Gone? {
        if c.autoRestore {
          if t.restored.Some? {
            pid := t.restored.value;
            lastCheckpoint := m.now;
            currentInterval := Interval(c.base, t.childRuntime);
            m := m.(lives := m.lives[pid := Running], children := m.children + {pid},
                    restores := m.restores + 1, failures := 0);
          }
        }
        m := m.(pid := pid, last := lastCheckpoint, interval := currentInterval);
        continue;
      }
      currentInterval := Interval(c.base, t.runtime);
      if m.now - lastCheckpoint >= currentInterval {
        var saved;
        saved, m := CheckpointAttempt(m, t);
        if saved {
          lastCheckpoint := m.now;
        }
      }
      m := m.(last := lastCheckpoint, interval := currentInterval);
    }
    assert ticks[..i] == ticks;
    final := Some(m);
  }

  /** ulcr_checkpoint_latest as the monitor sees it: does it return 0, and what becomes of the target. */
  method CheckpointAttempt(m: Mon, t: Tick) returns (saved: bool, m': Mon)
    requires m.pid in m.lives
    ensures saved <==> m.lives[m.pid].Running? && t.saves && !t.fate.Reaped?
    ensures m'.(lives := m.lives, checkpoints := m.checkpoints, failures := m.failures, reaps := m.reaps) == m
    ensures m'.checkpoints == m.checkpoints + if saved then 1 else 0
    ensures m'.failures == if saved then 0 else m.failures + 1
    ensures !m.lives[m.pid].Running? ==> m'.lives == m.lives && m'.reaps == m.reaps
    ensures m.lives[m.pid].Running? ==>
      && m'.lives == m.lives[m.pid := AfterAttempt(m, t)]
      && m'.reaps == m.reaps + if t.fate.Reaped? && m.pid in m.children then 1 else 0
  {
    saved := m.lives[m.pid].Running? && t.saves && !t.fate.Reaped?;
    m' := m.(checkpoints := m.checkpoints + (if saved then 1 else 0), failures := if saved then 0 else m.failures + 1);
    if m.lives[m.pid].Running? {
      m' := m'.(lives := m.lives[m.pid := AfterAttempt(m, t)],
                reaps := m.reaps + if t.fate.Reaped? && m.pid in m.children then 1 else 0);
    }
  }

  // ---- When it attempts a checkpoint ----

  /** `gap` seconds after the last save an attempt is due: the interval, or a half or a third of it, rounded down. */
  predicate Due(base: int, runtime: Option<real>, gap: int) {
    if runtime.None? || runtime.value < 60.0 then gap >= base
    else if runtime.value < 300.0 then gap >= 1 && 2 * gap + 1 >= base
    else if base > 3 then 3 * gap + 2 >= base
    else gap >= base
  }

  lemma DueIff(base: int, runtime: Option<real>, gap: int)
    requires base >= 1
    ensures gap >= Interval(base, runtime) <==> Due(base, runtime, gap)
  {
  }

  /**
   A tick that finds the process attempts a checkpoint if and only if one is due, from the run time
   and the time of the last save alone.  It saves if and only if moreover the process is running, the
   attempt succeeds, and the process is not reaped in it; only then the time of the last save changes.
   */
  lemma AttemptIff(m: Mon, c: Config, t: Tick)
    requires Accepted(c) && m.pid in m.lives && !Pass(m, t).Gone?
    ensures var m', due := OneTick(m, c, t), Due(c.base, t.runtime, m.now + c.period - m.last);
      && m'.now == m.now + c.period && m'.pid == m.pid && m'.restores == m.restores
      && (m'.checkpoints > m.checkpoints || m'.failures > m.failures <==> due)
      && (m'.checkpoints > m.checkpoints <==>
            due && m.lives[m.pid].Running? && !t.crashes && t.saves && !t.fate.Reaped?)
      && m'.last == if m'.checkpoints > m.checkpoints then m'.now else m.last
  {
    DueIff(c.base, t.runtime, m.now + c.period - m.last);
  }

  /**
   A tick that finds no process restores one if and only if that is configured and the restore
   succeeds; the new process is then watched, with its age counted from now.  Otherwise the tick
   changes nothing.
   */
  lemma RestoreIff(m: Mon, c: Config, t: Tick)
    requires Accepted(c) && m.pid in m.lives && Pass(m, t).Gone?
    ensures var m' := OneTick(m, c, t);
      && (m'.restores > m.restores <==> c.autoRestore && t.restored.Some?)
      && if m'.restores > m.restores then
           && Some(m'.pid) == t.restored && m'.pid in m'.lives && m'.lives[m'.pid].Running? && m'.pid in m'.children
           && m'.last == m'.now && m'.failures == 0 && m'.checkpoints == m.checkpoints
         else m' == m.(now := m.now + c.period, lives := m.lives[m.pid := Gone])
  {
  }

  // ---- How much work a crash can lose ----

  /** Once something was saved or restored: a bound on the age of the last save, while the process runs. */
  ghost predicate Recent(m: Mon, c: Config, limit: int)
    requires m.pid in m.lives
  {
    m.checkpoints + m.restores > 0 ==>
      0 <= m.now - m.last && (m.lives[m.pid].Running? ==> m.now - m.last < limit + c.period * m.failures)
  }

  lemma TickRecent(m: Mon, c: Config, limit: int, t: Tick)
    requires Accepted(c) && m.pid in m.lives && m.last <= m.now && Recent(m, c, limit)
    requires Interval(c.base, t.runtime) <= limit
    ensures var m' := OneTick(m, c, t);
      && m'.last <= m'.now && Recent(m', c, limit)
      && (m'.checkpoints > m.checkpoints ==> m'.last == m'.now && m'.last - m.last >= m'.interval >= 1)
  {
    var m' := OneTick(m, c, t);
    assert c.period * (m.failures + 1) == c.period * m.failures + c.period;
    assert m'.failures == 0 ==> c.period * m'.failures == 0;
    assert c.period * m.failures >= 0;
  }

  lemma {:induction false} RunRecent(m: Mon, c: Config, limit: int, ticks: seq<Tick>)
    requires Accepted(c) && m.pid in m.lives && m.last <= m.now && Recent(m, c, limit)
    requires forall i :: 0 <= i < |ticks| ==> Interval(c.base, ticks[i].runtime) <= limit
    ensures var r := RunTicks(m, c, ticks);
      r.last <= r.now && Recent(r, c, limit) && r.checkpoints + r.restores >= m.checkpoints + m.restores
  {
    if ticks != [] {
      RunRecent(m, c, limit, ticks[..|ticks| - 1]);
      TickRecent(RunTicks(m, c, ticks[..|ticks| - 1]), c, limit, ticks[|ticks| - 1]);
    }
  }

  /**
   Bounded lost work.  In every run that has saved or restored once, a crash of the running
   process at any time up to the next tick loses less than base + period seconds since the
   later of the last checkpoint and the last restore, plus one period for every failed attempt.
   */
  lemma BoundedLoss(pid: Pid, life: Life, c: Config, start: nat, ticks: seq<Tick>, crash: int)
    requires Accepted(c)
    ensures var m := RunTicks(Started(pid, life, c, start), c, ticks);
      m.checkpoints + m.restores > 0 && m.lives[m.pid].Running? && m.now <= crash <= m.now + c.period ==>
        crash - m.last < c.base + c.period * (m.failures + 1)
  {
    RunRecent(Started(pid, life, c, start), c, c.base, ticks);
    var m := RunTicks(Started(pid, life, c, start), c, ticks);
    assert c.period * (m.failures + 1) == c.period * m.failures + c.period;
  }

  /**
   What the shorter interval is for: once the process has run for five minutes, every run that
   goes on from a save loses less than a third of the configured interval, plus the period.
   */
  lemma LossShrinks(m: Mon, c: Config, ticks: seq<Tick>, crash: int)
    requires Accepted(c) && c.base > 3 && m.pid in m.lives && m.now == m.last && m.checkpoints + m.restores > 0
    requires forall i :: 0 <= i < |ticks| ==> ticks[i].runtime.Some? && ticks[i].runtime.value >= 300.0
    ensures var r := RunTicks(m, c, ticks);
      r.lives[r.pid].Running? && r.now <= crash <= r.now + c.period ==>
        3 * (crash - r.last - c.period * (r.failures + 1)) < c.base
  {
    RunRecent(m, c, c.base / 3, ticks);
    var r := RunTicks(m, c, ticks);
    assert c.period * (r.failures + 1) == c.period * r.failures + c.period;
  }

  /** Whatever else happens, an attempt on a running process succeeds. */
  predicate Saving(t: Tick) {
    t.saves && t.fate.Survives?
  }

  /** With a clock past the first interval, whoever runs after a tick has been saved or restored. */
  lemma {:induction false} SavingRun(pid: Pid, life: Life, c: Config, start: nat, ticks: seq<Tick>)
    requires Accepted(c) && start >= c.base && forall i :: 0 <= i < |ticks| ==> Saving(ticks[i])
    ensures var m := RunTicks(Started(pid, life, c, start), c, ticks);
      && m.now >= start && (m.checkpoints + m.restores == 0 ==> m.last == 0)
      && (m.lives[m.pid].Running? ==> m.failures == 0 && (ticks != [] ==> m.checkpoints + m.restores > 0))
  {
    if ticks != [] {
      SavingRun(pid, life, c, start, ticks[..|ticks| - 1]);
    }
  }

  /**
   When attempts succeed, every run loses less than base + period seconds to a crash at any time
   between two ticks, from the first tick that finds the process alive on.
   */
  lemma LossWhenSaving(pid: Pid, life: Life, c: Config, start: nat, ticks: seq<Tick>, crash: int)
    requires Accepted(c) && start >= c.base && ticks != [] && forall i :: 0 <= i < |ticks| ==> Saving(ticks[i])
    ensures var m := RunTicks(Started(pid, life, c, start), c, ticks);
      m.lives[m.pid].Running? && m.now <= crash <= m.now + c.period ==> crash - m.last < c.base + c.period
  {
    SavingRun(pid, life, c, start, ticks);
    BoundedLoss(pid, life, c, start, ticks, crash);
  }

  // ---- How often it checkpoints ----

  /** ceil(d / p): how many periods of `p` seconds cover `d` seconds. */
  function Ceil(d: int, p: int): (k: int)
    requires d >= 1 && p >= 1
    ensures k >= 1
  {
    (d + p - 1) / p
  }

  lemma CeilCovers(d: int, p: int, j: int)
    requires d >= 1 && p >= 1
    ensures j * p >= d <==> j >= Ceil(d, p)
  {
    var k := Ceil(d, p);
    assert d + p - 1 == k * p + (d + p - 1) % p;
    if j >= k {
      MulMono(k, j, p);
    } else {
      MulMono(j, k - 1, p);
      assert (k - 1) * p == k * p - p;
    }
  }

  /** The watched process neither dies nor fails to be saved. */
  predicate Healthy(t: Tick) {
    !t.crashes && t.saves && t.fate.Survives?
  }

  lemma HealthyTick(m: Mon, c: Config, t: Tick, j: nat)
    requires Accepted(c) && m.pid in m.lives && m.lives[m.pid].Running? && Healthy(t)
    requires m.now - m.last == j * c.period && j < Ceil(c.base, c.period)
    ensures var m' := OneTick(m, c, t);
      && m'.pid == m.pid && m'.lives[m'.pid].Running?
      && if m'.checkpoints == m.checkpoints + 1
         then m'.now == m'.last && m'.interval <= m'.last - m.last <= Ceil(c.base, c.period) * c.period
         else
           && m'.checkpoints == m.checkpoints && m'.last == m.last
           && m'.now - m'.last == (j + 1) * c.period && j + 1 < Ceil(c.base, c.period)
  {
    CeilCovers(c.base, c.period, Ceil(c.base, c.period));
    CeilCovers(c.base, c.period, j + 1);
    assert (j + 1) * c.period == j * c.period + c.period;
    if j + 1 <= Ceil(c.base, c.period) {
      MulMono(j + 1, Ceil(c.base, c.period), c.period);
    }
  }

  lemma MulMono(x: int, y: int, p: int)
    requires x <= y && p >= 0
    ensures x * p <= y * p
  {
  }

  lemma OneMore(k: int, n: int)
    ensures k * (n + 1) == k * n + k
  {
  }

  /** Ticks since the last checkpoint, and the count so far. */
  lemma {:induction false} HealthyRun(m: Mon, c: Config, ticks: seq<Tick>) returns (j: nat)
    requires Accepted(c) && m.pid in m.lives && m.lives[m.pid].Running? && m.now == m.last
    requires forall i :: 0 <= i < |ticks| ==> Healthy(ticks[i])
    ensures var r := RunTicks(m, c, ticks);
      && r.pid == m.pid && r.lives[r.pid].Running?
      && r.now - r.last == j * c.period && j < Ceil(c.base, c.period)
      && |ticks| <= Ceil(c.base, c.period) * (r.checkpoints - m.checkpoints) + j
  {
    hide OneTick, Ceil, Healthy;
    j := 0;
    if ticks != [] {
      var init := ticks[..|ticks| - 1];
      var k := HealthyRun(m, c, init);
      var before := RunTicks(m, c, init);
      HealthyTick(before, c, ticks[|ticks| - 1], k);
      var r := RunTicks(m, c, ticks);
      if r.checkpoints == before.checkpoints + 1 {
        OneMore(Ceil(c.base, c.period), before.checkpoints - m.checkpoints);
      } else {
        j := k + 1;
      }
    }
  }

  /** N live ticks after a checkpoint bring at least floor(N / ceil(base / period)) more. */
  lemma CheckpointRate(m: Mon, c: Config, ticks: seq<Tick>)
    requires Accepted(c) && m.pid in m.lives && m.lives[m.pid].Running? && m.now == m.last
    requires forall i :: 0 <= i < |ticks| ==> Healthy(ticks[i])
    ensures RunTicks(m, c, ticks).checkpoints - m.checkpoints >= |ticks| / Ceil(c.base, c.period)
  {
    var j := HealthyRun(m, c, ticks);
    var n, k := RunTicks(m, c, ticks).checkpoints - m.checkpoints, Ceil(c.base, c.period);
    DivBound(|ticks|, k, n, j);
  }

  lemma DivBound(x: nat, k: int, n: int, j: nat)
    requires j < k && x <= k * n + j
    ensures x / k <= n
  {
    var q := x / k;
    assert x == q * k + x % k;
    assert (n + 1) * k == k * n + k;
    if q > n {
      MulMono(n + 1, q, k);
    }
  }

  /** While the interval is steady, a checkpoint comes with the first tick that covers it. */
  lemma SteadyTick(m: Mon, c: Config, t: Tick, d: int, j: nat)
    requires Accepted(c) && m.pid in m.lives && m.lives[m.pid].Running? && Healthy(t)
    requires d >= 1 && (forall gap :: Due(c.base, t.runtime, gap) <==> gap >= d)
    requires m.now - m.last == j * c.period && j < Ceil(d, c.period)
    ensures var m' := OneTick(m, c, t);
      && m'.pid == m.pid && m'.lives[m'.pid].Running?
      && if j + 1 == Ceil(d, c.period)
         then m'.checkpoints == m.checkpoints + 1 && m'.now == m'.last
         else m'.checkpoints == m.checkpoints && m'.now - m'.last == (j + 1) * c.period
  {
    hide Due, Interval, Ceil;
    DueIff(c.base, t.runtime, m.now + c.period - m.last);
    CeilCovers(d, c.period, j + 1);
    assert (j + 1) * c.period == j * c.period + c.period;
  }

  lemma {:induction false} SteadyRun(m: Mon, c: Config, ticks: seq<Tick>, d: int) returns (j: nat)
    requires Accepted(c) && m.pid in m.lives && m.lives[m.pid].Running? && m.now == m.last && d >= 1
    requires forall i :: 0 <= i < |ticks| ==> Healthy(ticks[i])
    requires forall i, gap :: 0 <= i < |ticks| ==> (Due(c.base, ticks[i].runtime, gap) <==> gap >= d)
    ensures var r := RunTicks(m, c, ticks);
      && r.pid == m.pid && r.lives[r.pid].Running?
      && r.now - r.last == j * c.period && j < Ceil(d, c.period)
      && |ticks| == Ceil(d, c.period) * (r.checkpoints - m.checkpoints) + j
  {
    hide OneTick, Ceil, Healthy, Due;
    j := 0;
    if ticks != [] {
      var init := ticks[..|ticks| - 1];
      var k := SteadyRun(m, c, init, d);
      var before := RunTicks(m, c, init);
      SteadyTick(before, c, ticks[|ticks| - 1], d, k);
      if k + 1 == Ceil(d, c.period) {
        OneMore(Ceil(d, c.period), before.checkpoints - m.checkpoints);
      } else {
        j := k + 1;
      }
    }
  }

  /**
   Exactly how often: N healthy ticks after a save bring floor(N / ceil(d / period)) checkpoints,
   no more and no fewer, where d is the configured interval in the first minute of run time, half of
   it up to five minutes, and a third of it from then on, rounded down; an interval too short to be
   divided becomes 1 in the middle range and stays as it is in the last.
   */
  lemma ExactRate(m: Mon, c: Config, ticks: seq<Tick>)
    requires Accepted(c) && m.pid in m.lives && m.lives[m.pid].Running? && m.now == m.last
    requires forall i :: 0 <= i < |ticks| ==> Healthy(ticks[i])
    ensures var n := RunTicks(m, c, ticks).checkpoints - m.checkpoints;
      && ((forall i :: 0 <= i < |ticks| ==> ticks[i].runtime.None? || ticks[i].runtime.value < 60.0) ==>
            n == |ticks| / Ceil(c.base, c.period))
      && ((forall i :: 0 <= i < |ticks| ==> ticks[i].runtime.Some? && 60.0 <= ticks[i].runtime.value < 300.0) ==>
            n == |ticks| / Ceil(if c.base > 2 then c.base / 2 else 1, c.period))
      && ((forall i :: 0 <= i < |ticks| ==> ticks[i].runtime.Some? && ticks[i].runtime.value >= 300.0) ==>
            n == |ticks| / Ceil(if c.base > 3 then c.base / 3 else c.base, c.period))
  {
    hide Ceil, RunTicks, Healthy;
    if forall i :: 0 <= i < |ticks| ==> ticks[i].runtime.None? || ticks[i].runtime.value < 60.0 {
      SteadyRate(m, c, ticks, c.base);
    }
    if forall i :: 0 <= i < |ticks| ==> ticks[i].runtime.Some? && 60.0 <= ticks[i].runtime.value < 300.0 {
      SteadyRate(m, c, ticks, if c.base > 2 then c.base / 2 else 1);
    }
    if forall i :: 0 <= i < |ticks| ==> ticks[i].runtime.Some? && ticks[i].runtime.value >= 300.0 {
      SteadyRate(m, c, ticks, if c.base > 3 then c.base / 3 else c.base);
    }
  }

  lemma SteadyRate(m: Mon, c: Config, ticks: seq<Tick>, d: int)
    requires Accepted(c) && m.pid in m.lives && m.lives[m.pid].Running? && m.now == m.last && d >= 1
    requires forall i :: 0 <= i < |ticks| ==> Healthy(ticks[i])
    requires forall i, gap :: 0 <= i < |ticks| ==> (Due(c.base, ticks[i].runtime, gap) <==> gap >= d)
    ensures RunTicks(m, c, ticks).checkpoints - m.checkpoints == |ticks| / Ceil(d, c.period)
  {
    hide Ceil, RunTicks, Due, Healthy;
    var j := SteadyRun(m, c, ticks, d);
    var n, k := RunTicks(m, c, ticks).checkpoints - m.checkpoints, Ceil(d, c.period);
    assert |ticks| / k == n by { DivExact(|ticks|, k, n, j); }
  }

  lemma DivExact(x: nat, k: int, n: int, j: nat)
    requires j < k && x == k * n + j
    ensures x / k == n
  {
    DivBound(x, k, n, j);
    var q := x / k;
    assert x == q * k + x % k;
    assert (q + 1) * k == q * k + k;
    if q < n {
      MulMono(q + 1, n, k);
    }
  }

  // ---- What monitoring does not achieve ----

  /** Only the watched process can be running, so there is never a second instance. */
  ghost predicate Single(m: Mon) {
    m.pid in m.lives && forall p :: p in m.lives && m.lives[p].Running? ==> p == m.pid
  }

  lemma {:induction false} AtMostOneInstance(m: Mon, c: Config, ticks: seq<Tick>)
    requires Accepted(c) && Single(m)
    ensures Single(RunTicks(m, c, ticks))
  {
    if ticks != [] {
      AtMostOneInstance(m, c, ticks[..|ticks| - 1]);
    }
  }

  /** Processes the monitor restored that it has not collected: at most the one it watches. */
  ghost predicate Counted(m: Mon) {
    && m.pid in m.lives
    && m.restores <= m.reaps + (if m.pid in m.children then 1 else 0)
    && (m.pid in m.children && m.lives[m.pid].Gone? ==> m.restores <= m.reaps)
  }

  lemma TickCounted(m: Mon, c: Config, t: Tick)
    requires Accepted(c) && Counted(m)
    ensures Counted(OneTick(m, c, t))
  {
  }

  // ---- When a dead process is restored ----

  /** By tick `k` the dead process has lost its /proc entry; the monitor never waits for its own children. */
  ghost predicate CollectedBy(m: Mon, ticks: seq<Tick>, k: int)
    requires m.pid in m.lives
  {
    m.lives[m.pid].Gone? || (m.pid !in m.children && exists j :: 0 <= j <= k && j < |ticks| && ticks[j].collected)
  }

  /** Tick `k` finds no process, and its restore succeeds. */
  ghost predicate Chance(m: Mon, c: Config, ticks: seq<Tick>, k: int)
    requires m.pid in m.lives
  {
    0 <= k < |ticks| && c.autoRestore && ticks[k].restored.Some? && CollectedBy(m, ticks, k)
  }

  /** A run from a dead process: nothing changes before the first chance. */
  lemma {:induction false} DeadRun(m: Mon, c: Config, ticks: seq<Tick>)
    requires Accepted(c) && m.pid in m.lives && !m.lives[m.pid].Running?
    ensures var r := RunTicks(m, c, ticks);
      if exists k :: Chance(m, c, ticks, k) then r.restores > m.restores
      else
        && r.pid == m.pid && r.children == m.children && r.restores == m.restores && r.checkpoints == m.checkpoints
        && r.lives[r.pid] == if CollectedBy(m, ticks, |ticks| - 1) then Gone else m.lives[m.pid]
  {
    if ticks != [] {
      var n := |ticks| - 1;
      DeadRun(m, c, ticks[..n]);
      SameChances(m, c, ticks, n);
      assert CollectedBy(m, ticks, n) <==>
        CollectedBy(m, ticks[..n], n - 1) || (m.pid !in m.children && ticks[n].collected);
      if exists k :: Chance(m, c, ticks[..n], k) {
        assert exists k :: Chance(m, c, ticks, k);
      } else {
        assert (exists k :: Chance(m, c, ticks, k)) <==> Chance(m, c, ticks, n);
      }
    }
  }

  lemma SameChances(m: Mon, c: Config, ticks: seq<Tick>, n: nat)
    requires m.pid in m.lives && n <= |ticks|
    ensures forall k :: k < n ==> (CollectedBy(m, ticks[..n], k) <==> CollectedBy(m, ticks, k))
    ensures forall k :: Chance(m, c, ticks[..n], k) <==> k < n && Chance(m, c, ticks, k)
  {
    assert forall j :: 0 <= j < n ==> ticks[..n][j] == ticks[j];
  }

  /**
   Automatic restore: a dead process is restored in a run exactly if some tick's restore succeeds
   after the process was collected, which for a process the monitor itself restored takes that
   it is gone already.
   */
  lemma RestoredIff(m: Mon, c: Config, ticks: seq<Tick>)
    requires Accepted(c) && m.pid in m.lives && !m.lives[m.pid].Running?
    ensures RunTicks(m, c, ticks).restores > m.restores <==> exists k :: Chance(m, c, ticks, k)
  {
    DeadRun(m, c, ticks);
  }

  /** It is restored at the first such tick, and monitored from there on. */
  lemma RestoredAtFirstChance(m: Mon, c: Config, ticks: seq<Tick>, k: nat)
    requires Accepted(c) && m.pid in m.lives && !m.lives[m.pid].Running?
    requires Chance(m, c, ticks, k) && forall j :: Chance(m, c, ticks, j) ==> j >= k
    ensures var r := RunTicks(m, c, ticks[..k + 1]);
      && r.restores == m.restores + 1 && Some(r.pid) == ticks[k].restored && r.lives[r.pid].Running?
      && r.last == r.now && r.interval == Interval(c.base, ticks[k].childRuntime) && r.pid in r.children
  {
    DeadRun(m, c, ticks[..k]);
    SameChances(m, c, ticks, k);
    assert ticks[..k + 1][..k] == ticks[..k];
    assert CollectedBy(m, ticks, k) <==>
      CollectedBy(m, ticks[..k], k - 1) || (m.pid !in m.children && ticks[k].collected);
  }

  /**
   When an attach reaps the process, the next tick whose restore succeeds brings back one that the
   monitor had restored; one with another parent first has to be collected by it.
   */
  lemma ReapedIsRestored(m: Mon, c: Config, t: Tick, u: Tick)
    requires Accepted(c) && m.pid in m.lives && m.lives[m.pid].Running? && !t.crashes && t.fate.Reaped?
    requires Due(c.base, t.runtime, m.now + c.period - m.last) && c.autoRestore && u.restored.Some?
    ensures RunTicks(m, c, [t, u]).restores == m.restores + if m.pid in m.children || u.collected then 1 else 0
  {
    DueIff(c.base, t.runtime, m.now + c.period - m.last);
    assert [t, u][..1] == [t] && [t][..0] == [];
    assert RunTicks(m, c, [t]) == OneTick(m, c, t);
  }

  /** A crash before the next tick makes the process dead for that tick. */
  lemma {:induction false} CrashRun(m: Mon, c: Config, ticks: seq<Tick>)
    requires Accepted(c) && m.pid in m.lives && m.lives[m.pid].Running? && ticks != [] && ticks[0].crashes
    ensures RunTicks(m, c, ticks) == RunTicks(m.(lives := m.lives[m.pid := Zombie]), c, ticks)
  {
    var dead := m.(lives := m.lives[m.pid := Zombie]);
    if |ticks| == 1 {
      assert ticks[..0] == [];
      assert m.lives[m.pid := Pass(m, ticks[0])] == dead.lives[m.pid := Pass(dead, ticks[0])];
    } else {
      CrashRun(m, c, ticks[..|ticks| - 1]);
    }
  }

  /**
   Automatic restore works once: in any run the number of restores is at most one more than the
   number of restored processes that happened to be collected by the wait of an attach.
   */
  lemma {:induction false} RestoresOnce(pid: Pid, life: Life, c: Config, start: int, ticks: seq<Tick>)
    requires Accepted(c)
    ensures Counted(RunTicks(Started(pid, life, c, start), c, ticks))
    ensures var m := RunTicks(Started(pid, life, c, start), c, ticks); m.restores <= m.reaps + 1
  {
    if ticks != [] {
      RestoresOnce(pid, life, c, start, ticks[..|ticks| - 1]);
      TickCounted(RunTicks(Started(pid, life, c, start), c, ticks[..|ticks| - 1]), c, ticks[|ticks| - 1]);
    }
  }

  /** Once a restored process is a zombie, no later tick restores or checkpoints anything. */
  lemma {:induction false} ZombieStopsMonitoring(m: Mon, c: Config, ticks: seq<Tick>)
    requires Accepted(c) && m.pid in m.lives && m.lives[m.pid].Zombie? && m.pid in m.children
    ensures var r := RunTicks(m, c, ticks);
      && r.pid == m.pid && r.lives[r.pid].Zombie? && r.children == m.children
      && r.restores == m.restores && r.checkpoints == m.checkpoints
  {
    if ticks != [] {
      ZombieStopsMonitoring(m, c, ticks[..|ticks| - 1]);
    }
  }
}
