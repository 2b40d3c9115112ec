/** The shared collector (test/integration/lotelhelper/lotelhelper.go): helpers that start it on first
  use, count their references, and stop it on last release.

  Any number of Start and cleanup calls interleave. A critical section of `pkgMu` or of a helper's
  `mu` is one step, because nothing in it waits; `startupMu`, which is held across commands, is
  explicit. Commands succeed or fail as they like, except that a successful health check means
  that the collector is up, a successful start leaves it up and a successful stop leaves it down.
  A start or stop that fails may leave it either way, whatever it was before. Nothing outside the
  package starts or stops it meanwhile.
 */
module Collector {
  import opened Values

  /** Where a Start call is in ensureRunning. */
  datatype StartPc =
    | AtLock                      // before startupMu
    | AtRead
    | AtHealth
    | AtAdopt                     // found healthy
    | AtLaunch
    | AtMark                      // launched
    | AtIngest(startedHere: bool)
    | AtUndo                      // ingest failed after a launch
    | AtUnmark
    | AtCount(first: bool)
    | Running                     // returned a helper
    | Skipped

  /** A Start call and, once it is Running, its helper. `closer` is the cleanup call that set `closed`. */
  datatype Starter = Starter(pc: StartPc, closed: bool, closer: Option<nat>, released: bool)

  datatype CleanupPc = AtClose | AtDecrement | AtStop | AtClear(ok: bool) | Ended

  datatype Cleanup = Cleanup(helper: nat, pc: CleanupPc)

  /** The collector: whether it is up; and as history, whether the one that is up was once found healthy,
      whether a start command has succeeded on top of it since, and whether such a collector was ever
      told to stop. */
  datatype Process = Process(up: bool, adopted: bool, startedOver: bool, stoppedAdopted: bool)

  /** The package variables, the collector, and whether a cleanup has been stopping the collector while
      a Start call was in its window between the read of the count and its last step. */
  datatype State = State(
    starters: seq<Starter>, cleanups: seq<Cleanup>, startupMu: Option<nat>,
    refs: int, started: bool, process: Process, overlapped: bool)

  predicate Initial(s: State) {
    && s.starters == [] && s.cleanups == [] && s.startupMu.None? && s.refs == 0 && !s.started
    && !s.process.adopted && !s.process.startedOver && !s.process.stoppedAdopted && !s.overlapped
  }

  /** The steps of a Start call, with the outcomes of its commands. */
  datatype StartAct =
    | Lock | Read | Health(healthy: bool) | Adopt | Launch(ok: bool, upAfter: bool) | Mark
    | Ingest(ok: bool) | Undo(ok: bool, upAfter: bool) | Unmark | Count

  /** The steps of a cleanup call. */
  datatype CleanupAct = Close | Decrement | Stop(ok: bool, upAfter: bool) | Clear

  datatype Step =
    | EnterStart | OfStart(i: nat, act: StartAct)
    | EnterCleanup(helper: nat) | OfCleanup(c: nat, cleanup: CleanupAct)

  predicate StartEnabled(s: State, pc: StartPc, act: StartAct) {
    match act
    case Lock => pc.AtLock? && s.startupMu.None?
    case Read => pc.AtRead?
    case Health(healthy) => pc.AtHealth? && (healthy ==> s.process.up)
    case Adopt => pc.AtAdopt?
    case Launch(_, _) => pc.AtLaunch?
    case Mark => pc.AtMark?
    case Ingest(_) => pc.AtIngest?
    case Undo(_, _) => pc.AtUndo?
    case Unmark => pc.AtUnmark?
    case Count => pc.AtCount?
  }

  predicate CleanupEnabled(pc: CleanupPc, act: CleanupAct) {
    match act
    case Close => pc.AtClose?
    case Decrement => pc.AtDecrement?
    case Stop(_, _) => pc.AtStop?
    case Clear => pc.AtClear?
  }

  predicate Enabled(s: State, step: Step) {
    match step
    case EnterStart => true
    case EnterCleanup(h) => h < |s.starters| && s.starters[h].pc.Running?
    case OfStart(i, act) => i < |s.starters| && StartEnabled(s, s.starters[i].pc, act)
    case OfCleanup(c, act) =>
      c < |s.cleanups| && s.cleanups[c].helper < |s.starters| && CleanupEnabled(s.cleanups[c].pc, act)
  }

  /** Where a Start call goes on. Returning releases startupMu in the same step. */
  function NextPc(s: State, pc: StartPc, act: StartAct): StartPc
    requires StartEnabled(s, pc, act)
  {
    match act
    case Lock => AtRead
    case Read => if s.refs == 0 then AtHealth else AtCount(false)
    case Health(healthy) => if healthy then AtAdopt else AtLaunch
    case Adopt => AtIngest(false)
    case Launch(ok, _) => if ok then AtMark else Skipped
    case Mark => AtIngest(true)
    case Ingest(ok) => if ok then AtCount(true) else if pc.startedHere then AtUndo else Skipped
    case Undo(_, _) => AtUnmark
    case Unmark => Skipped
    case Count => Running
  }

  /** A collector that goes down is no longer the one that was found healthy. */
  function SetUp(p: Process, up: bool): Process {
    p.(up := up, adopted := p.adopted && up, startedOver := p.startedOver && up)
  }

  /** The stop command: after a failure the collector may be up or down. */
  function StopCommand(p: Process, ok: bool, upAfter: bool): Process {
    SetUp(p, !ok && upAfter).(stoppedAdopted := p.stoppedAdopted || p.adopted)
  }

  /** The start command, which can also be given to a collector that is up. */
  function StartCommand(p: Process, ok: bool, upAfter: bool): Process {
    var after := SetUp(p, ok || upAfter);
    if ok then after.(startedOver := p.adopted) else after
  }

  /** What a step of a Start call does to the package variables and the collector. */
  function StartEffect(s: State, act: StartAct): State {
    match act
    case Adopt => s.(started := false, process := s.process.(adopted := s.process.up, startedOver := false))
    case Launch(ok, upAfter) => s.(process := StartCommand(s.process, ok, upAfter))
    case Mark => s.(started := true)
    case Undo(ok, upAfter) => s.(process := StopCommand(s.process, ok, upAfter))
    case Unmark => s.(started := false)
    case Count => s.(refs := s.refs + 1)
    case _ => s
  }

  function ApplyStart(s: State, i: nat, act: StartAct): State
    requires Enabled(s, OfStart(i, act))
  {
    var next := NextPc(s, s.starters[i].pc, act);
    StartEffect(s, act).(
      starters := s.starters[i := s.starters[i].(pc := next)],
      startupMu := if HoldsStartup(next) then Some(i) else None)
  }

  /** What a step of cleanup `c` leaves in its helper. */
  function NextHelper(x: Starter, c: nat, act: CleanupAct): Starter {
    match act
    case Close => if x.closed then x else x.(closed := true, closer := Some(c))
    case Decrement => x.(released := true)
    case _ => x
  }

  function NextCleanup(s: State, x: Starter, act: CleanupAct): CleanupPc {
    match act
    case Close => if x.closed then Ended else AtDecrement
    case Decrement => if s.refs - 1 == 0 && s.started then AtStop else Ended
    case Stop(ok, _) => AtClear(ok)
    case Clear => Ended
  }

  /** What a step of a cleanup does to the package variables and the collector. */
  function CleanupEffect(s: State, pc: CleanupPc, act: CleanupAct): State
    requires CleanupEnabled(pc, act)
  {
    match act
    case Close => s
    case Decrement => s.(refs := s.refs - 1)
    case Stop(ok, upAfter) => s.(process := StopCommand(s.process, ok, upAfter))
    case Clear => s.(started := s.started && !pc.ok)
  }

  function ApplyCleanup(s: State, c: nat, act: CleanupAct): State
    requires Enabled(s, OfCleanup(c, act))
  {
    var y := s.cleanups[c];
    var x := s.starters[y.helper];
    CleanupEffect(s, y.pc, act).(
      starters := s.starters[y.helper := NextHelper(x, c, act)],
      cleanups := s.cleanups[c := y.(pc := NextCleanup(s, x, act))])
  }

  /** Between the read of the count and the last step of a Start call. */
  predicate InWindow(pc: StartPc) {
    !pc.AtLock? && !pc.AtRead? && !pc.Running? && !pc.Skipped?
  }

  predicate HoldsStartup(pc: StartPc) {
    pc.AtRead? || InWindow(pc)
  }

  predicate Stopping(pc: CleanupPc) {
    pc.AtStop? || pc.AtClear?
  }

  predicate SomeInWindow(s: State) {
    exists i | 0 <= i < |s.starters| :: InWindow(s.starters[i].pc)
  }

  predicate SomeStopping(s: State) {
    exists c | 0 <= c < |s.cleanups| :: Stopping(s.cleanups[c].pc)
  }

  /** A step without its effect on `overlapped`. */
  function Effect(s: State, step: Step): State
    requires Enabled(s, step)
  {
    match step
    case EnterStart => s.(starters := s.starters + [Starter(AtLock, false, None, false)])
    case EnterCleanup(h) => s.(cleanups := s.cleanups + [Cleanup(h, AtClose)])
    case OfStart(i, act) => ApplyStart(s, i, act)
    case OfCleanup(c, act) => ApplyCleanup(s, c, act)
  }

  function Apply(s: State, step: Step): State
    requires Enabled(s, step)
  {
    var t := Effect(s, step);
    t.(overlapped := s.overlapped || (SomeInWindow(t) && SomeStopping(t)))
  }

  /** The state after `steps` from `s0`; None if some step is not enabled. */
  function Exec(s0: State, steps: seq<Step>): Option<State> {
    if steps == [] then Some(s0)
    else
      var before := Exec(s0, steps[..|steps| - 1]);
      var step := steps[|steps| - 1];
      if before.None? || !Enabled(before.value, step) then None else Some(Apply(before.value, step))
  }

  // ---- The reference count, in all interleavings --------------------------------------------

  /** A helper that has been counted and has not been released. */
  predicate Live(x: Starter) {
    x.pc.Running? && !x.released
  }

  function LiveCount(starters: seq<Starter>): nat {
    if starters == [] then 0
    else LiveCount(starters[..|starters| - 1]) + if Live(starters[|starters| - 1]) then 1 else 0
  }

  lemma {:induction false} LiveCountUpdate(starters: seq<Starter>, i: nat, x: Starter)
    requires i < |starters|
    ensures LiveCount(starters[i := x])
      == LiveCount(starters) + (if Live(x) then 1 else 0) - (if Live(starters[i]) then 1 else 0)
  {
    var n := |starters| - 1;
    if i < n {
      assert starters[i := x][..n] == starters[..n][i := x];
      LiveCountUpdate(starters[..n], i, x);
    } else {
      assert starters[i := x][..n] == starters[..n];
    }
  }

  lemma {:induction false} LiveCountPositive(starters: seq<Starter>, i: nat)
    requires i < |starters| && Live(starters[i])
    ensures LiveCount(starters) > 0
  {
    var n := |starters| - 1;
    if i < n {
      LiveCountPositive(starters[..n], i);
    }
  }

  predicate StarterInv(s: State, i: nat)
    requires i < |s.starters|
  {
    var x := s.starters[i];
    && (HoldsStartup(x.pc) <==> s.startupMu == Some(i))
    && (x.closed <==> x.closer.Some?)
    && (x.closed ==> x.pc.Running?)
    && (x.released ==> x.closed)
  }

  predicate CleanupInv(s: State, c: nat)
    requires c < |s.cleanups|
  {
    var y := s.cleanups[c];
    && y.helper < |s.starters| && s.starters[y.helper].pc.Running?
    && (y.pc.AtDecrement? || Stopping(y.pc) ==> s.starters[y.helper].closer == Some(c))
    && (y.pc.AtDecrement? ==> !s.starters[y.helper].released)
    && (Stopping(y.pc) ==> s.starters[y.helper].released)
  }

  ghost predicate CountInv(s: State) {
    && (forall i | 0 <= i < |s.starters| :: StarterInv(s, i))
    && (forall c | 0 <= c < |s.cleanups| :: CleanupInv(s, c))
    && (s.startupMu.Some? ==> s.startupMu.value < |s.starters|)
    && s.refs == LiveCount(s.starters)
  }

  lemma StartShape(s: State, i: nat, act: StartAct)
    requires Enabled(s, OfStart(i, act))
    ensures var t := ApplyStart(s, i, act);
      var next := NextPc(s, s.starters[i].pc, act);
      && t.starters == s.starters[i := s.starters[i].(pc := next)] && t.cleanups == s.cleanups
      && t.startupMu == (if HoldsStartup(next) then Some(i) else None)
      && t.refs == s.refs + (if act.Count? then 1 else 0) && t.overlapped == s.overlapped
  {
    hide NextPc, HoldsStartup, StartEnabled, StartEffect;
    StartEffectShape(s, act);
  }

  lemma StartEffectShape(s: State, act: StartAct)
    ensures var t := StartEffect(s, act);
      && t.refs == s.refs + (if act.Count? then 1 else 0) && t.overlapped == s.overlapped
      && t.cleanups == s.cleanups
  {
  }

  lemma StartKeepsCountInv(s: State, i: nat, act: StartAct)
    requires CountInv(s) && Enabled(s, OfStart(i, act))
    ensures CountInv(ApplyStart(s, i, act))
  {
    hide LiveCount, ApplyStart;
    var t := ApplyStart(s, i, act);
    StartShape(s, i, act);
    assert StarterInv(s, i);
    forall j | 0 <= j < |t.starters| ensures StarterInv(t, j) {
      assert StarterInv(s, j);
    }
    forall c | 0 <= c < |t.cleanups| ensures CleanupInv(t, c) {
      assert CleanupInv(s, c);
    }
    LiveCountUpdate(s.starters, i, t.starters[i]);
  }

  lemma CleanupShape(s: State, c: nat, act: CleanupAct)
    requires Enabled(s, OfCleanup(c, act))
    ensures var t := ApplyCleanup(s, c, act);
      var y := s.cleanups[c];
      var x := s.starters[y.helper];
      && t.starters == s.starters[y.helper := NextHelper(x, c, act)]
      && t.cleanups == s.cleanups[c := y.(pc := NextCleanup(s, x, act))]
      && t.startupMu == s.startupMu && t.refs == s.refs - (if act.Decrement? then 1 else 0)
      && t.overlapped == s.overlapped
  {
    hide NextHelper, NextCleanup;
  }

  lemma CountInvParts(s: State, i: nat, c: nat)
    requires CountInv(s) && i < |s.starters| && c < |s.cleanups|
    ensures StarterInv(s, i) && CleanupInv(s, c)
  {
  }

  lemma CleanupKeepsStarters(s: State, c: nat, act: CleanupAct, j: nat)
    requires CountInv(s) && Enabled(s, OfCleanup(c, act)) && j < |s.starters|
    ensures j < |ApplyCleanup(s, c, act).starters| && StarterInv(ApplyCleanup(s, c, act), j)
  {
    hide CountInv, HoldsStartup, ApplyCleanup, NextCleanup;
    CleanupShape(s, c, act);
    CountInvParts(s, j, c);
  }

  lemma CleanupKeepsCleanups(s: State, c: nat, act: CleanupAct, d: nat)
    requires CountInv(s) && Enabled(s, OfCleanup(c, act)) && d < |s.cleanups|
    ensures d < |ApplyCleanup(s, c, act).cleanups| && CleanupInv(ApplyCleanup(s, c, act), d)
  {
    hide CountInv, HoldsStartup, ApplyCleanup;
    CleanupShape(s, c, act);
    CountInvParts(s, s.cleanups[c].helper, d);
    CountInvParts(s, s.cleanups[c].helper, c);
  }

  lemma CleanupKeepsCount(s: State, c: nat, act: CleanupAct)
    requires CountInv(s) && Enabled(s, OfCleanup(c, act))
    ensures ApplyCleanup(s, c, act).refs == LiveCount(ApplyCleanup(s, c, act).starters)
  {
    hide LiveCount, HoldsStartup, ApplyCleanup, NextCleanup;
    CleanupShape(s, c, act);
    var h := s.cleanups[c].helper;
    assert CleanupInv(s, c) && StarterInv(s, h);
    LiveCountUpdate(s.starters, h, NextHelper(s.starters[h], c, act));
  }

  lemma CleanupKeepsCountInv(s: State, c: nat, act: CleanupAct)
    requires CountInv(s) && Enabled(s, OfCleanup(c, act))
    ensures CountInv(ApplyCleanup(s, c, act))
  {
    hide LiveCount, StarterInv, CleanupInv, ApplyCleanup, NextHelper, NextCleanup;
    CleanupShape(s, c, act);
    forall j | 0 <= j < |s.starters| ensures StarterInv(ApplyCleanup(s, c, act), j) {
      CleanupKeepsStarters(s, c, act, j);
    }
    forall d | 0 <= d < |s.cleanups| ensures CleanupInv(ApplyCleanup(s, c, act), d) {
      CleanupKeepsCleanups(s, c, act, d);
    }
    CleanupKeepsCount(s, c, act);
  }

  lemma EnterKeepsCountInv(s: State, step: Step)
    requires CountInv(s) && Enabled(s, step) && (step.EnterStart? || step.EnterCleanup?)
    ensures CountInv(Effect(s, step))
  {
    var t := Effect(s, step);
    assert step.EnterStart? ==> t.starters[..|s.starters|] == s.starters;
    forall j | 0 <= j < |t.starters| ensures StarterInv(t, j) {
      assert j < |s.starters| ==> StarterInv(s, j);
    }
    forall c | 0 <= c < |t.cleanups| ensures CleanupInv(t, c) {
      assert c < |s.cleanups| ==> CleanupInv(s, c);
    }
  }

  lemma StepKeepsCountInv(s: State, step: Step)
    requires CountInv(s) && Enabled(s, step)
    ensures CountInv(Apply(s, step))
  {
    hide LiveCount, ApplyStart, ApplyCleanup, SomeInWindow, SomeStopping;
    match step {
      case OfStart(i, act) => StartKeepsCountInv(s, i, act);
      case OfCleanup(c, act) => CleanupKeepsCountInv(s, c, act);
      case _ => EnterKeepsCountInv(s, step);
    }
    var e, t := Effect(s, step), Apply(s, step);
    assert forall i | 0 <= i < |e.starters| :: StarterInv(e, i) ==> StarterInv(t, i);
    assert forall c | 0 <= c < |e.cleanups| :: CleanupInv(e, c) ==> CleanupInv(t, c);
  }

  lemma {:induction false} RunKeepsCountInv(s0: State, steps: seq<Step>)
    requires Initial(s0) && Exec(s0, steps).Some?
    ensures CountInv(Exec(s0, steps).value)
  {
    if steps != [] {
      var n := |steps| - 1;
      RunKeepsCountInv(s0, steps[..n]);
      StepKeepsCountInv(Exec(s0, steps[..n]).value, steps[n]);
    }
  }

  /** In every interleaving the count is the number of helpers that were counted and not yet released,
      so it is never negative; and a helper is released at most once, however often its cleanup is
      called: the step that releases it finds it unreleased. */
  lemma {:induction false} CountIsExact(s0: State, steps: seq<Step>, c: nat)
    requires Initial(s0) && Exec(s0, steps).Some?
    ensures var s := Exec(s0, steps).value;
      && s.refs == LiveCount(s.starters) >= 0
      && (Enabled(s, OfCleanup(c, Decrement)) ==> Live(s.starters[s.cleanups[c].helper]) && s.refs > 0)
  {
    RunKeepsCountInv(s0, steps);
    var s := Exec(s0, steps).value;
    if Enabled(s, OfCleanup(c, Decrement)) {
      assert CleanupInv(s, c);
      LiveCountPositive(s.starters, s.cleanups[c].helper);
    }
  }

  // ---- What the calls of a run have done ----------------------------------------------------

  predicate Launches(step: Step, i: nat) {
    step.OfStart? && step.i == i && step.act.Launch? && step.act.ok
  }

  predicate Ingests(step: Step, i: nat) {
    step.OfStart? && step.i == i && step.act.Ingest? && step.act.ok
  }

  predicate Undoes(step: Step, i: nat) {
    step.OfStart? && step.i == i && step.act.Undo?
  }

  /** Cleanup `c` gives a stop command that succeeds. */
  predicate StopsWell(step: Step, c: nat) {
    step.OfCleanup? && step.c == c && step.cleanup.Stop? && step.cleanup.ok
  }

  predicate Launched(steps: seq<Step>, i: nat) {
    exists k | 0 <= k < |steps| :: Launches(steps[k], i)
  }

  predicate Ingested(steps: seq<Step>, i: nat) {
    exists k | 0 <= k < |steps| :: Ingests(steps[k], i)
  }

  predicate Undone(steps: seq<Step>, i: nat) {
    exists k | 0 <= k < |steps| :: Undoes(steps[k], i)
  }

  predicate StoppedWell(steps: seq<Step>, c: nat) {
    exists k | 0 <= k < |steps| :: StopsWell(steps[k], c)
  }

  lemma OneMoreStep(steps: seq<Step>, step: Step, i: nat)
    ensures Launched(steps + [step], i) <==> Launched(steps, i) || Launches(step, i)
    ensures Ingested(steps + [step], i) <==> Ingested(steps, i) || Ingests(step, i)
    ensures Undone(steps + [step], i) <==> Undone(steps, i) || Undoes(step, i)
    ensures StoppedWell(steps + [step], i) <==> StoppedWell(steps, i) || StopsWell(step, i)
  {
    hide Launches, Ingests, Undoes, StopsWell;
    var all := steps + [step];
    assert all[|steps|] == step && forall k | 0 <= k < |steps| :: all[k] == steps[k];
  }

  /** What a Start call has done when it is at `pc`. */
  predicate DoneAt(pc: StartPc, launched: bool, ingested: bool, undone: bool) {
    match pc
    case AtMark => launched && !ingested && !undone
    case AtIngest(startedHere) => launched == startedHere && !ingested && !undone
    case AtUndo => launched && !ingested && !undone
    case AtUnmark => launched && !ingested && undone
    case Skipped => launched == undone && !ingested
    case AtCount(first) => ingested == first && (launched ==> first) && !undone
    case Running => (launched ==> ingested) && !undone
    case _ => !launched && !ingested && !undone
  }

  /** What a cleanup has done when it is at `pc`. */
  predicate StoppedAt(pc: CleanupPc, stopped: bool) {
    match pc
    case AtClear(ok) => stopped == ok
    case Ended => true
    case _ => !stopped
  }

  predicate StartDid(s: State, steps: seq<Step>, i: nat) {
    DoneAt(if i < |s.starters| then s.starters[i].pc else AtLock,
      Launched(steps, i), Ingested(steps, i), Undone(steps, i))
  }

  predicate CleanupDid(s: State, steps: seq<Step>, c: nat) {
    StoppedAt(if c < |s.cleanups| then s.cleanups[c].pc else AtClose, StoppedWell(steps, c))
  }

  ghost predicate CallsDid(s: State, steps: seq<Step>) {
    (forall i: nat :: StartDid(s, steps, i)) && (forall c: nat :: CleanupDid(s, steps, c))
  }

  lemma StepKeepsStarts(s: State, steps: seq<Step>, step: Step, i: nat)
    requires StartDid(s, steps, i) && Enabled(s, step)
    ensures StartDid(Apply(s, step), steps + [step], i)
  {
    hide Launched, Ingested, Undone, StoppedWell, SomeInWindow, SomeStopping, ApplyStart, ApplyCleanup;
    OneMoreStep(steps, step, i);
    if step.OfStart? {
      StartShape(s, step.i, step.act);
    } else if step.OfCleanup? {
      CleanupShape(s, step.c, step.cleanup);
    }
  }

  lemma StepKeepsStops(s: State, steps: seq<Step>, step: Step, c: nat)
    requires CleanupDid(s, steps, c) && Enabled(s, step)
    ensures CleanupDid(Apply(s, step), steps + [step], c)
  {
    hide Launched, Ingested, Undone, StoppedWell, SomeInWindow, SomeStopping, ApplyStart, ApplyCleanup;
    OneMoreStep(steps, step, c);
    if step.OfStart? {
      StartShape(s, step.i, step.act);
    } else if step.OfCleanup? {
      CleanupShape(s, step.c, step.cleanup);
    }
  }

  lemma {:induction false} RunKeepsCallsDid(s0: State, steps: seq<Step>)
    requires Initial(s0) && Exec(s0, steps).Some?
    ensures CallsDid(Exec(s0, steps).value, steps)
  {
    hide Apply, Enabled, StartDid, CleanupDid;
    if steps == [] {
      NothingDone(s0);
    } else {
      var n := |steps| - 1;
      var s := Exec(s0, steps[..n]).value;
      RunKeepsCallsDid(s0, steps[..n]);
      assert steps[..n] + [steps[n]] == steps;
      forall i: nat ensures StartDid(Exec(s0, steps).value, steps, i) {
        StepKeepsStarts(s, steps[..n], steps[n], i);
      }
      forall c: nat ensures CleanupDid(Exec(s0, steps).value, steps, c) {
        StepKeepsStops(s, steps[..n], steps[n], c);
      }
    }
  }

  lemma NothingDone(s0: State)
    requires Initial(s0)
    ensures CallsDid(s0, [])
  {
  }

  /** A Start call that has launched the collector and gives up has told it to stop, and only then has it
      told it to stop; one that has returned a helper after a launch has ingested. */
  lemma LaunchIsUndoneOrUsed(s0: State, steps: seq<Step>, i: nat)
    requires Initial(s0) && Exec(s0, steps).Some? && i < |Exec(s0, steps).value.starters|
    ensures var pc := Exec(s0, steps).value.starters[i].pc;
      && (pc.Skipped? ==> (Undone(steps, i) <==> Launched(steps, i)) && !Ingested(steps, i))
      && (pc.Running? ==> (Launched(steps, i) ==> Ingested(steps, i)) && !Undone(steps, i))
  {
    hide Launched, Ingested, Undone, CleanupDid;
    RunKeepsCallsDid(s0, steps);
    var pc := Exec(s0, steps).value.starters[i].pc;
    assert StartDid(Exec(s0, steps).value, steps, i);
  }

  /** The last step that concerns `pkgStarted` recorded a launch: no later one found the collector healthy,
      took the launch back, or ended a stop that succeeded. */
  predicate Recorded(steps: seq<Step>) {
    steps != [] &&
    var init, step := steps[..|steps| - 1], steps[|steps| - 1];
    match step
    case OfStart(_, Mark) => true
    case OfStart(_, Adopt) => false
    case OfStart(_, Unmark) => false
    case OfCleanup(c, Clear) => Recorded(init) && !StoppedWell(init, c)
    case _ => Recorded(init)
  }

  lemma {:induction false} StartedMeansRecorded(s0: State, steps: seq<Step>)
    requires Initial(s0) && Exec(s0, steps).Some?
    ensures Exec(s0, steps).value.started <==> Recorded(steps)
  {
    hide SomeInWindow, SomeStopping, StoppedWell, NextHelper, NextPc, NextCleanup, StartDid;
    if steps != [] {
      var n := |steps| - 1;
      var s, step := Exec(s0, steps[..n]).value, steps[n];
      StartedMeansRecorded(s0, steps[..n]);
      RunKeepsCallsDid(s0, steps[..n]);
      if step.OfCleanup? && step.cleanup.Clear? {
        assert CleanupDid(s, steps[..n], step.c);
      }
    }
  }

  // ---- The collector is up while it is counted, unless calls overlap ------------------------

  /** A collector that was found healthy has been started again since. */
  predicate StopIsOurs(s: State) {
    s.process.adopted ==> s.process.startedOver
  }

  /** What a Start call knows in its window. */
  predicate WindowInv(s: State, pc: StartPc) {
    match pc
    case AtHealth => s.refs == 0
    case AtLaunch => s.refs == 0
    case AtUnmark => s.refs == 0
    case AtAdopt => s.refs == 0 && s.process.up
    case AtMark => s.refs == 0 && s.process.up && StopIsOurs(s)
    case AtIngest(startedHere) => s.refs == 0 && s.process.up && (startedHere ==> StopIsOurs(s))
    case AtUndo => s.refs == 0 && StopIsOurs(s)
    case AtCount(first) => s.process.up && (first ==> s.refs == 0)
    case _ => true
  }

  ghost predicate UpInv(s: State) {
    && (s.process.adopted ==> s.process.up) && (s.process.startedOver ==> s.process.adopted)
    && (!s.overlapped ==>
      && (s.started ==> StopIsOurs(s))
      && !(SomeInWindow(s) && SomeStopping(s))
      && (s.refs > 0 ==> s.process.up)
      && (forall i | 0 <= i < |s.starters| :: WindowInv(s, s.starters[i].pc))
      && (forall c | 0 <= c < |s.cleanups| && s.cleanups[c].pc.AtStop? :: s.refs == 0 && StopIsOurs(s)))
  }

  /** The part of the invariant that a step of call `i` is responsible for. */
  lemma StartKeepsOwnUp(s: State, i: nat, act: StartAct)
    requires CountInv(s) && UpInv(s) && !s.overlapped && Enabled(s, OfStart(i, act))
    ensures var t := ApplyStart(s, i, act);
      && WindowInv(t, t.starters[i].pc)
      && (t.refs > 0 ==> t.process.up)
      && (t.started ==> StopIsOurs(t))
  {
    hide LiveCount, StarterInv, CleanupInv, SomeInWindow, SomeStopping;
    assert WindowInv(s, s.starters[i].pc) && s.refs >= 0;
  }

  lemma StartKeepsOtherUp(s: State, i: nat, act: StartAct, j: nat)
    requires CountInv(s) && Enabled(s, OfStart(i, act)) && j < |s.starters| && j != i
    ensures var t := ApplyStart(s, i, act);
      WindowInv(t, t.starters[j].pc)
  {
    hide LiveCount;
    assert StarterInv(s, i) && StarterInv(s, j);
  }

  /** While a cleanup is stopping the collector, a Start call can only take startupMu. */
  lemma StartLeavesStoppingAlone(s: State, i: nat, act: StartAct)
    requires Enabled(s, OfStart(i, act)) && SomeStopping(s) && !SomeInWindow(s)
    requires !Apply(s, OfStart(i, act)).overlapped
    ensures act.Lock?
  {
    var t := ApplyStart(s, i, act);
    assert SomeStopping(t);
    assert InWindow(t.starters[i].pc) ==> SomeInWindow(t);
    assert InWindow(s.starters[i].pc) ==> SomeInWindow(s);
  }

  lemma StartKeepsUp(s: State, i: nat, act: StartAct)
    requires CountInv(s) && UpInv(s) && Enabled(s, OfStart(i, act))
    ensures UpInv(Apply(s, OfStart(i, act)))
  {
    hide CountInv, WindowInv, NextPc, SomeInWindow, SomeStopping;
    var t := Apply(s, OfStart(i, act));
    if !t.overlapped {
      NotOverlapped(s, OfStart(i, act));
      StartKeepsOwnUp(s, i, act);
      forall j | 0 <= j < |t.starters| ensures WindowInv(t, t.starters[j].pc) {
        if j != i {
          StartKeepsOtherUp(s, i, act, j);
        }
        SameWindow(ApplyStart(s, i, act), t, t.starters[j].pc);
      }
      forall c | 0 <= c < |t.cleanups| && t.cleanups[c].pc.AtStop? ensures t.refs == 0 && StopIsOurs(t) {
        AStopIsStopping(s, c);
        StartLeavesStoppingAlone(s, i, act);
      }
    }
  }

  /** A step that has not overlapped leaves no window beside a stop. */
  lemma NotOverlapped(s: State, step: Step)
    requires Enabled(s, step) && !Apply(s, step).overlapped
    ensures !s.overlapped && !(SomeInWindow(Apply(s, step)) && SomeStopping(Apply(s, step)))
  {
    hide ApplyStart, ApplyCleanup;
    var e, t := Effect(s, step), Apply(s, step);
    assert t == e.(overlapped := false);
    assert SomeInWindow(t) <==> SomeInWindow(e);
    assert SomeStopping(t) <==> SomeStopping(e);
  }

  lemma SameWindow(s: State, t: State, pc: StartPc)
    requires WindowInv(s, pc) && t == s.(overlapped := t.overlapped)
    ensures WindowInv(t, pc)
  {
  }

  lemma AStopIsStopping(s: State, c: nat)
    requires c < |s.cleanups| && Stopping(s.cleanups[c].pc)
    ensures SomeStopping(s)
  {
  }

  /** Outside every window, what a Start call knows does not depend on the state. */
  lemma NobodyInWindow(s: State, t: State, j: nat)
    requires !SomeInWindow(s) && j < |s.starters|
    ensures WindowInv(t, s.starters[j].pc)
  {
  }

  /** A step of a cleanup that stops the collector finds no Start call in its window. */
  lemma CleanupFindsNoWindow(s: State, c: nat, act: CleanupAct)
    requires Enabled(s, OfCleanup(c, act)) && (act.Stop? || act.Clear?)
    requires !(SomeInWindow(s) && SomeStopping(s)) && !Apply(s, OfCleanup(c, act)).overlapped
    ensures !SomeInWindow(s)
  {
    AStopIsStopping(s, c);
  }

  lemma CleanupKeepsUp(s: State, c: nat, act: CleanupAct)
    requires CountInv(s) && UpInv(s) && Enabled(s, OfCleanup(c, act))
    ensures UpInv(Apply(s, OfCleanup(c, act)))
  {
    hide LiveCount, CountInv, WindowInv, SomeInWindow, SomeStopping;
    var t := Apply(s, OfCleanup(c, act));
    if !t.overlapped {
      NotOverlapped(s, OfCleanup(c, act));
      forall j | 0 <= j < |t.starters| ensures t.starters[j].pc == s.starters[j].pc {}
      if act.Close? {
        forall j | 0 <= j < |t.starters| ensures WindowInv(t, t.starters[j].pc) {
          CloseKeepsWindow(s, t, s.starters[j].pc);
        }
      } else if act.Decrement? {
        ReleaseFindsCount(s, c);
        forall j | 0 <= j < |t.starters| ensures WindowInv(t, t.starters[j].pc) {
          ReleaseKeepsWindow(s, t, s.starters[j].pc);
        }
      } else {
        CleanupFindsNoWindow(s, c, act);
        forall j | 0 <= j < |t.starters| ensures WindowInv(t, t.starters[j].pc) {
          NobodyInWindow(s, t, j);
        }
      }
    }
  }

  lemma CloseKeepsWindow(s: State, t: State, pc: StartPc)
    requires WindowInv(s, pc) && t.refs == s.refs && t.process == s.process
    ensures WindowInv(t, pc)
  {
  }

  /** A release finds a positive count, so no Start call that read zero is in its window. */
  lemma ReleaseKeepsWindow(s: State, t: State, pc: StartPc)
    requires WindowInv(s, pc) && s.refs > 0 && t.refs == s.refs - 1 && t.process == s.process
    ensures WindowInv(t, pc)
  {
  }

  lemma ReleaseFindsCount(s: State, c: nat)
    requires CountInv(s) && Enabled(s, OfCleanup(c, Decrement))
    ensures s.refs > 0
  {
    assert CleanupInv(s, c);
    LiveCountPositive(s.starters, s.cleanups[c].helper);
  }

  lemma EnterKeepsUp(s: State, step: Step)
    requires CountInv(s) && UpInv(s) && Enabled(s, step) && (step.EnterStart? || step.EnterCleanup?)
    ensures UpInv(Apply(s, step))
  {
    hide LiveCount, CountInv;
    var t := Apply(s, step);
    if !t.overlapped {
      NotOverlapped(s, step);
      forall j | 0 <= j < |t.starters| ensures WindowInv(t, t.starters[j].pc) {
        assert j < |s.starters| ==> WindowInv(s, s.starters[j].pc);
      }
    }
  }

  lemma {:induction false} RunKeepsUpInv(s0: State, steps: seq<Step>)
    requires Initial(s0) && Exec(s0, steps).Some?
    ensures UpInv(Exec(s0, steps).value)
  {
    hide UpInv, Apply;
    if steps == [] {
      InitialIsUp(s0);
    } else {
      var n := |steps| - 1;
      var s := Exec(s0, steps[..n]).value;
      RunKeepsCountInv(s0, steps[..n]);
      RunKeepsUpInv(s0, steps[..n]);
      match steps[n] {
        case OfStart(i, act) => StartKeepsUp(s, i, act);
        case OfCleanup(c, act) => CleanupKeepsUp(s, c, act);
        case _ => EnterKeepsUp(s, steps[n]);
      }
    }
  }

  lemma InitialIsUp(s0: State)
    requires Initial(s0)
    ensures UpInv(s0)
  {
  }

  predicate IsStop(step: Step) {
    (step.OfStart? && step.act.Undo?) || (step.OfCleanup? && step.cleanup.Stop?)
  }

  // ---- Starting over an adopted collector ---------------------------------------------------

  /** A start command succeeds while the collector is up that was found healthy. */
  predicate StartsOver(s: State, step: Step) {
    step.OfStart? && step.act.Launch? && step.act.ok && s.process.adopted
  }

  predicate IsAdopt(step: Step) {
    step.OfStart? && step.act.Adopt?
  }

  predicate UpAt(s0: State, steps: seq<Step>, j: nat)
    requires j <= |steps|
  {
    Exec(s0, steps[..j]).Some? && Exec(s0, steps[..j]).value.process.up
  }

  predicate StartsOverAt(s0: State, steps: seq<Step>, k: nat)
    requires k < |steps|
  {
    Exec(s0, steps[..k]).Some? && StartsOver(Exec(s0, steps[..k]).value, steps[k])
  }

  /** The run has a start command on top of an adopted collector, which has been up ever since and has
      not been found healthy again. */
  ghost predicate StartedOver(s0: State, steps: seq<Step>) {
    exists k | 0 <= k < |steps| :: StartsOverAt(s0, steps, k) && StillStartedOver(s0, steps, k)
  }

  ghost predicate StillStartedOver(s0: State, steps: seq<Step>, k: nat) {
    forall j | k < j <= |steps| :: UpAt(s0, steps, j) && (j < |steps| ==> !IsAdopt(steps[j]))
  }

  lemma StartedOverStep(s0: State, steps: seq<Step>, step: Step)
    requires Exec(s0, steps + [step]).Some? && Exec(s0, steps).Some?
    ensures StartedOver(s0, steps + [step]) <==>
      && Exec(s0, steps + [step]).value.process.up
      && (StartsOver(Exec(s0, steps).value, step) || (StartedOver(s0, steps) && !IsAdopt(step)))
  {
    hide Exec, StartsOver, IsAdopt;
    var all, n := steps + [step], |steps|;
    assert all[..n] == steps && all[..n + 1] == all;
    assert forall k | 0 <= k <= n :: all[..k] == steps[..k];
    assert forall j: nat | j <= n :: UpAt(s0, all, j) <==> UpAt(s0, steps, j);
    assert forall k: nat | k < n :: StartsOverAt(s0, all, k) <==> StartsOverAt(s0, steps, k);
    assert StartsOverAt(s0, all, n) <==> StartsOver(Exec(s0, steps).value, step);
    assert UpAt(s0, all, n + 1) <==> Exec(s0, all).value.process.up;
    forall k | 0 <= k < n
      ensures StillStartedOver(s0, all, k) <==>
        StillStartedOver(s0, steps, k) && !IsAdopt(step) && UpAt(s0, all, n + 1)
    {
      StillStep(s0, steps, step, k);
    }
  }

  lemma StillStep(s0: State, steps: seq<Step>, step: Step, k: nat)
    requires k < |steps|
    ensures StillStartedOver(s0, steps + [step], k) <==>
      StillStartedOver(s0, steps, k) && !IsAdopt(step) && UpAt(s0, steps + [step], |steps| + 1)
  {
    hide Exec, IsAdopt;
    var all, n := steps + [step], |steps|;
    assert forall j | 0 <= j <= n :: all[..j] == steps[..j];
    assert forall j: nat | j <= n :: UpAt(s0, all, j) <==> UpAt(s0, steps, j);
    assert all[n] == step && forall j | 0 <= j < n :: all[j] == steps[j];
  }

  lemma FlagStep(s: State, step: Step)
    requires UpInv(s) && Enabled(s, step)
    ensures var t := Apply(s, step);
      t.process.startedOver <==> t.process.up && (StartsOver(s, step) || (s.process.startedOver && !IsAdopt(step)))
  {
    hide UpInv, SomeInWindow, SomeStopping, NextPc, NextHelper, NextCleanup;
    AdoptedIsUp(s);
  }

  /** The flag says what it is meant to say about the run. */
  lemma {:induction false} FlagMeansStartedOver(s0: State, steps: seq<Step>)
    requires Initial(s0) && Exec(s0, steps).Some?
    ensures Exec(s0, steps).value.process.startedOver <==> StartedOver(s0, steps)
  {
    hide UpInv, Apply, StartedOver;
    if steps == [] {
      NoStartOver(s0);
    } else {
      var n := |steps| - 1;
      FlagMeansStartedOver(s0, steps[..n]);
      RunKeepsUpInv(s0, steps[..n]);
      FlagStep(Exec(s0, steps[..n]).value, steps[n]);
      assert steps[..n] + [steps[n]] == steps;
      StartedOverStep(s0, steps[..n], steps[n]);
    }
  }

  lemma NoStartOver(s0: State)
    ensures !StartedOver(s0, [])
  {
  }

  /** The health check of Start call `i` fails although the collector is up that was found healthy. */
  predicate FailsCheckAt(s0: State, steps: seq<Step>, i: nat, h: nat)
    requires h < |steps|
  {
    && steps[h] == OfStart(i, Health(false)) && UpAt(s0, steps, h)
    && Exec(s0, steps[..h]).value.process.adopted
  }

  ghost predicate FailedCheck(s0: State, steps: seq<Step>, i: nat) {
    exists h | 0 <= h < |steps| :: FailsCheckAt(s0, steps, i, h)
  }

  lemma LaunchComesFromCheck(s: State, step: Step, i: nat)
    requires CountInv(s) && Enabled(s, step)
    requires var t := Apply(s, step); i < |t.starters| && t.starters[i].pc.AtLaunch? && t.process.adopted
    ensures s.process.adopted
    ensures step == OfStart(i, Health(false)) || (i < |s.starters| && s.starters[i].pc.AtLaunch?)
  {
    hide LiveCount, SomeInWindow, SomeStopping;
    if step.OfStart? {
      assert StarterInv(s, step.i);
      assert i < |s.starters| && StarterInv(s, i);
    }
  }

  lemma {:induction false} AtLaunchAfterFailedCheck(s0: State, steps: seq<Step>, i: nat)
    requires Initial(s0) && Exec(s0, steps).Some?
    requires var s := Exec(s0, steps).value; i < |s.starters| && s.starters[i].pc.AtLaunch? && s.process.adopted
    ensures FailedCheck(s0, steps, i)
  {
    hide Apply, CountInv, UpInv, Enabled;
    var n := |steps| - 1;
    var s := Exec(s0, steps[..n]).value;
    RunKeepsCountInv(s0, steps[..n]);
    RunKeepsUpInv(s0, steps[..n]);
    LaunchComesFromCheck(s, steps[n], i);
    if steps[n] == OfStart(i, Health(false)) {
      AdoptedIsUp(s);
      assert FailsCheckAt(s0, steps, i, n);
    } else {
      AtLaunchAfterFailedCheck(s0, steps[..n], i);
      var h :| 0 <= h < n && FailsCheckAt(s0, steps[..n], i, h);
      assert steps[..n][..h] == steps[..h];
      assert FailsCheckAt(s0, steps, i, h);
    }
  }

  lemma AdoptedIsUp(s: State)
    requires UpInv(s)
    ensures (s.process.adopted ==> s.process.up) && (s.process.startedOver ==> s.process.adopted)
  {
  }

  lemma {:induction false} PrefixRuns(s0: State, steps: seq<Step>, k: nat)
    requires Exec(s0, steps).Some? && k <= |steps|
    ensures Exec(s0, steps[..k]).Some?
  {
    hide Apply, Enabled;
    var n := |steps| - 1;
    if k <= n {
      PrefixRuns(s0, steps[..n], k);
      assert steps[..n][..k] == steps[..k];
    } else {
      assert steps[..k] == steps;
    }
  }

  /** A Start call starts over an adopted collector only after its own health check has failed, although
      that collector was up. */
  lemma StartOverTakesFailedCheck(s0: State, steps: seq<Step>, k: nat)
    requires Initial(s0) && Exec(s0, steps).Some? && k < |steps| && StartsOverAt(s0, steps, k)
    ensures FailedCheck(s0, steps[..k], steps[k].i)
  {
    hide FailedCheck, Apply, NextPc;
    PrefixRuns(s0, steps, k + 1);
    assert steps[..k + 1][..k] == steps[..k];
    AtLaunchAfterFailedCheck(s0, steps[..k], steps[k].i);
  }

  /** In the run, a stop command was given to a collector that had been started over. */
  ghost predicate StopsAfterStartOver(s0: State, steps: seq<Step>) {
    exists k | 0 <= k < |steps| :: StopAt(s0, steps, k)
  }

  ghost predicate StopAt(s0: State, steps: seq<Step>, k: nat)
    requires k < |steps|
  {
    IsStop(steps[k]) && StartedOver(s0, steps[..k])
  }

  lemma StopsStep(s0: State, steps: seq<Step>, step: Step)
    ensures StopsAfterStartOver(s0, steps + [step]) <==>
      StopsAfterStartOver(s0, steps) || (IsStop(step) && StartedOver(s0, steps))
  {
    hide StartedOver;
    var all := steps + [step];
    assert all[..|steps|] == steps;
    assert forall k | 0 <= k < |steps| :: all[..k] == steps[..k];
    assert forall k: nat | k < |steps| :: StopAt(s0, all, k) <==> StopAt(s0, steps, k);
    assert StopAt(s0, all, |steps|) <==> IsStop(step) && StartedOver(s0, steps);
  }

  lemma StopMeetsAdopted(s: State, step: Step)
    requires CountInv(s) && UpInv(s) && Enabled(s, step) && !Apply(s, step).overlapped
    ensures Apply(s, step).process.stoppedAdopted <==>
      s.process.stoppedAdopted || (IsStop(step) && s.process.startedOver)
  {
    hide CountInv, SomeInWindow, SomeStopping;
    if step.OfStart? {
      assert WindowInv(s, s.starters[step.i].pc);
    }
  }

  /** In every run in which no cleanup stops the collector within the window of a Start call, the
      collector is up while a helper is counted; and a collector that was found healthy is told to stop
      exactly if a start command has succeeded on top of it before. */
  lemma {:induction false} CountedMeansUp(s0: State, steps: seq<Step>)
    requires Initial(s0) && Exec(s0, steps).Some? && !Exec(s0, steps).value.overlapped
    ensures var s := Exec(s0, steps).value;
      && (s.refs > 0 ==> s.process.up)
      && (s.process.stoppedAdopted <==> StopsAfterStartOver(s0, steps))
  {
    hide UpInv, CountInv, Apply, StartedOver, StopsAfterStartOver;
    RunKeepsUpInv(s0, steps);
    UpInvMeans(Exec(s0, steps).value);
    if steps == [] {
      NoStops(s0);
    } else {
      var n := |steps| - 1;
      var s := Exec(s0, steps[..n]).value;
      OverlapStays(s, steps[n]);
      CountedMeansUp(s0, steps[..n]);
      RunKeepsCountInv(s0, steps[..n]);
      RunKeepsUpInv(s0, steps[..n]);
      StopMeetsAdopted(s, steps[n]);
      FlagMeansStartedOver(s0, steps[..n]);
      assert steps[..n] + [steps[n]] == steps;
      StopsStep(s0, steps[..n], steps[n]);
    }
  }

  lemma UpInvMeans(s: State)
    requires UpInv(s) && !s.overlapped
    ensures s.refs > 0 ==> s.process.up
  {
  }

  lemma NoStops(s0: State)
    ensures !StopsAfterStartOver(s0, [])
  {
  }

  lemma OverlapStays(s: State, step: Step)
    requires Enabled(s, step)
    ensures s.overlapped ==> Apply(s, step).overlapped
  {
  }

  // ---- When a counted collector is down, in all interleavings -------------------------------

  /** From the moment on at which a Start call knows that the collector is up. */
  predicate Claiming(pc: StartPc) {
    pc.AtAdopt? || pc.AtMark? || pc.AtIngest? || pc.AtCount?
  }

  /** Somebody relies on the collector: a counted helper, or a Start call that is about to count one. */
  predicate Claimed(s: State) {
    s.refs > 0 || exists i | 0 <= i < |s.starters| :: Claiming(s.starters[i].pc)
  }

  /** A stop command of a cleanup that leaves the collector down. */
  predicate StopsDown(step: Step) {
    step.OfCleanup? && step.cleanup.Stop? && (step.cleanup.ok || !step.cleanup.upAfter)
  }

  /** One that fails, and leaves it up. */
  predicate StopsInVain(step: Step) {
    step.OfCleanup? && step.cleanup.Stop? && !StopsDown(step)
  }

  predicate ClaimedAt(s0: State, steps: seq<Step>, j: nat)
    requires j <= |steps|
  {
    Exec(s0, steps[..j]).Some? && Claimed(Exec(s0, steps[..j]).value)
  }

  predicate StruckAt(s0: State, steps: seq<Step>, k: nat)
    requires k < |steps|
  {
    StopsDown(steps[k]) && ClaimedAt(s0, steps, k)
  }

  /** A cleanup has stopped the collector under somebody who relied on it; somebody has relied on it ever
      since, and no later stop command has left it up. */
  ghost predicate Struck(s0: State, steps: seq<Step>) {
    exists k | 0 <= k < |steps| :: StruckAt(s0, steps, k) && StillStruck(s0, steps, k)
  }

  ghost predicate StillStruck(s0: State, steps: seq<Step>, k: nat) {
    forall j | k < j <= |steps| :: ClaimedAt(s0, steps, j) && (j < |steps| ==> !StopsInVain(steps[j]))
  }

  lemma StillStruckStep(s0: State, steps: seq<Step>, step: Step, k: nat)
    requires k < |steps|
    ensures StillStruck(s0, steps + [step], k) <==>
      StillStruck(s0, steps, k) && !StopsInVain(step) && ClaimedAt(s0, steps + [step], |steps| + 1)
  {
    hide Exec, Claimed, StopsInVain;
    var all, n := steps + [step], |steps|;
    assert forall j | 0 <= j <= n :: all[..j] == steps[..j];
    assert forall j: nat | j <= n :: ClaimedAt(s0, all, j) <==> ClaimedAt(s0, steps, j);
    assert all[n] == step && forall j | 0 <= j < n :: all[j] == steps[j];
  }

  lemma StruckStep(s0: State, steps: seq<Step>, step: Step)
    requires Exec(s0, steps + [step]).Some? && Exec(s0, steps).Some?
    ensures Struck(s0, steps + [step]) <==>
      && Claimed(Exec(s0, steps + [step]).value)
      && ((StopsDown(step) && Claimed(Exec(s0, steps).value)) || (Struck(s0, steps) && !StopsInVain(step)))
  {
    hide Exec, Claimed, StopsDown, StopsInVain;
    var all, n := steps + [step], |steps|;
    assert all[..n] == steps && all[..n + 1] == all;
    assert forall k | 0 <= k <= n :: all[..k] == steps[..k];
    assert forall k: nat | k < n :: StruckAt(s0, all, k) <==> StruckAt(s0, steps, k);
    assert StruckAt(s0, all, n) <==> StopsDown(step) && Claimed(Exec(s0, steps).value);
    assert ClaimedAt(s0, all, n + 1) <==> Claimed(Exec(s0, all).value);
    forall k | 0 <= k < n
      ensures StillStruck(s0, all, k) <==>
        StillStruck(s0, steps, k) && !StopsInVain(step) && ClaimedAt(s0, all, n + 1)
    {
      StillStruckStep(s0, steps, step, k);
    }
  }

  lemma StruckIsClaimed(s0: State, steps: seq<Step>)
    requires Exec(s0, steps).Some?
    ensures Struck(s0, steps) ==> Claimed(Exec(s0, steps).value)
  {
    hide Exec, Claimed, StruckAt;
    assert steps[..|steps|] == steps;
    assert ClaimedAt(s0, steps, |steps|) <==> Claimed(Exec(s0, steps).value);
  }

  /** A Start call that read the count as zero, and has not counted its own helper yet. */
  predicate ReadZero(pc: StartPc) {
    InWindow(pc) && (pc.AtCount? ==> pc.first)
  }

  ghost predicate ZeroInv(s: State) {
    forall i | 0 <= i < |s.starters| && ReadZero(s.starters[i].pc) :: s.refs == 0
  }

  lemma StepKeepsZero(s: State, step: Step)
    requires CountInv(s) && ZeroInv(s) && Enabled(s, step)
    ensures ZeroInv(Apply(s, step))
  {
    hide LiveCount, SomeInWindow, SomeStopping, ApplyStart, ApplyCleanup;
    match step {
      case OfStart(i, act) =>
        StartShape(s, i, act);
        CountIsNotNegative(s);
        forall j | 0 <= j < |s.starters| && j != i ensures !ReadZero(s.starters[j].pc) {
          assert StarterInv(s, i) && StarterInv(s, j);
        }
      case OfCleanup(c, act) =>
        CleanupShape(s, c, act);
        if act.Decrement? {
          ReleaseFindsCount(s, c);
        }
      case _ =>
    }
  }

  /** What Start call `i` does is all that can change whether a Start call relies on the collector. */
  lemma ClaimedByOne(s: State, i: nat, act: StartAct)
    requires CountInv(s) && Enabled(s, OfStart(i, act))
    ensures var t := ApplyStart(s, i, act);
      && (Claimed(s) <==> s.refs > 0 || Claiming(s.starters[i].pc))
      && (Claimed(t) <==> t.refs > 0 || Claiming(t.starters[i].pc))
  {
    hide LiveCount, ApplyStart;
    StartShape(s, i, act);
    forall j | 0 <= j < |s.starters| && j != i ensures !Claiming(s.starters[j].pc) {
      assert StarterInv(s, i) && StarterInv(s, j);
    }
  }

  /** How one step changes whether the collector is up, when somebody relies on it afterwards. */
  ghost predicate ClaimKept(s: State, step: Step, t: State) {
    if StopsDown(step) then Claimed(s) && !t.process.up
    else if StopsInVain(step) then t.process.up
    else t.process.up == (Claimed(s) ==> s.process.up)
  }

  lemma StartKeepsClaim(s: State, i: nat, act: StartAct)
    requires CountInv(s) && ZeroInv(s) && Enabled(s, OfStart(i, act)) && Claimed(ApplyStart(s, i, act))
    ensures ClaimKept(s, OfStart(i, act), ApplyStart(s, i, act))
  {
    hide CountInv, Claimed;
    ClaimedByOne(s, i, act);
    CountIsNotNegative(s);
    assert ReadZero(s.starters[i].pc) ==> s.refs == 0;
  }

  lemma CountIsNotNegative(s: State)
    requires CountInv(s)
    ensures s.refs >= 0
  {
  }

  lemma CleanupKeepsClaim(s: State, c: nat, act: CleanupAct)
    requires Enabled(s, OfCleanup(c, act)) && Claimed(ApplyCleanup(s, c, act))
    ensures ClaimKept(s, OfCleanup(c, act), ApplyCleanup(s, c, act))
  {
    var t := ApplyCleanup(s, c, act);
    assert forall j | 0 <= j < |t.starters| :: t.starters[j].pc == s.starters[j].pc;
  }

  lemma StepKeepsClaim(s: State, step: Step)
    requires CountInv(s) && ZeroInv(s) && Enabled(s, step) && Claimed(Apply(s, step))
    ensures ClaimKept(s, step, Apply(s, step))
  {
    hide CountInv, ZeroInv, ApplyStart, ApplyCleanup, SomeInWindow, SomeStopping, Claimed;
    var e, t := Effect(s, step), Apply(s, step);
    SameClaim(e, t);
    match step {
      case OfStart(i, act) => StartKeepsClaim(s, i, act);
      case OfCleanup(c, act) => CleanupKeepsClaim(s, c, act);
      case _ => EnterKeepsClaim(s, step);
    }
  }

  lemma EnterKeepsClaim(s: State, step: Step)
    requires Enabled(s, step) && (step.EnterStart? || step.EnterCleanup?)
    ensures Claimed(Effect(s, step)) <==> Claimed(s)
  {
    var t := Effect(s, step);
    assert forall j | 0 <= j < |s.starters| :: t.starters[j] == s.starters[j];
  }

  lemma SameClaim(s: State, t: State)
    requires s.starters == t.starters && s.refs == t.refs
    ensures Claimed(s) <==> Claimed(t)
  {
  }

  lemma {:induction false} RunKeepsZero(s0: State, steps: seq<Step>)
    requires Initial(s0) && Exec(s0, steps).Some?
    ensures ZeroInv(Exec(s0, steps).value)
  {
    hide Apply, CountInv;
    if steps != [] {
      var n := |steps| - 1;
      RunKeepsZero(s0, steps[..n]);
      RunKeepsCountInv(s0, steps[..n]);
      StepKeepsZero(Exec(s0, steps[..n]).value, steps[n]);
    }
  }

  lemma {:induction false} ClaimedMeansUp(s0: State, steps: seq<Step>)
    requires Initial(s0) && Exec(s0, steps).Some? && Claimed(Exec(s0, steps).value)
    ensures Exec(s0, steps).value.process.up <==> !Struck(s0, steps)
  {
    hide Apply, CountInv, ZeroInv, Claimed, Struck, StopsDown, StopsInVain;
    if steps == [] {
      NotClaimedYet(s0);
    } else {
      var n := |steps| - 1;
      var s := Exec(s0, steps[..n]).value;
      RunKeepsZero(s0, steps[..n]);
      RunKeepsCountInv(s0, steps[..n]);
      StepKeepsClaim(s, steps[n]);
      assert steps[..n] + [steps[n]] == steps;
      StruckStep(s0, steps[..n], steps[n]);
      StruckIsClaimed(s0, steps[..n]);
      DownIsNotVain(steps[n]);
      if Claimed(s) {
        ClaimedMeansUp(s0, steps[..n]);
      }
    }
  }

  lemma NotClaimedYet(s0: State)
    requires Initial(s0)
    ensures !Claimed(s0)
  {
  }

  lemma DownIsNotVain(step: Step)
    ensures !(StopsDown(step) && StopsInVain(step))
  {
  }

  /** The exact condition, in every run of every interleaving: a counted collector is down if and only if
      a cleanup has struck it. */
  lemma CountedButDown(s0: State, steps: seq<Step>)
    requires Initial(s0) && Exec(s0, steps).Some?
    ensures var s := Exec(s0, steps).value;
      s.refs > 0 ==> (!s.process.up <==> Struck(s0, steps))
  {
    hide Struck;
    if Exec(s0, steps).value.refs > 0 {
      ClaimedMeansUp(s0, steps);
    }
  }

  // ---- Why the hypothesis is needed ---------------------------------------------------------

  lemma Take(s0: State, steps: seq<Step>, s: State, step: Step) returns (steps': seq<Step>, s': State)
    requires Exec(s0, steps) == Some(s) && Enabled(s, step)
    ensures steps' == steps + [step] && s' == Apply(s, step) && Exec(s0, steps') == Some(s')
  {
    steps', s' := steps + [step], Apply(s, step);
    assert steps'[..|steps|] == steps;
  }

  const START := State([], [], None, 0, false, Process(false, false, false, false), false)

  /** One Start call, at the given place, and nothing else going on. */
  predicate OneStarter(s: State, pc: StartPc, refs: int, started: bool) {
    && s.starters == [Starter(pc, false, None, false)] && s.cleanups == []
    && s.startupMu == (if HoldsStartup(pc) then Some(0) else None)
    && s.refs == refs && s.started == started && s.process.up && !s.process.adopted
  }

  lemma FirstLaunch() returns (steps: seq<Step>, s: State)
    ensures Exec(START, steps) == Some(s) && OneStarter(s, AtMark, 0, false)
  {
    hide Exec, SomeInWindow, SomeStopping;
    EmptyRun(START);
    steps, s := [], START;
    steps, s := Take(START, steps, s, EnterStart);
    steps, s := Take(START, steps, s, OfStart(0, Lock));
    steps, s := Take(START, steps, s, OfStart(0, Read));
    steps, s := Take(START, steps, s, OfStart(0, Health(false)));
    steps, s := Take(START, steps, s, OfStart(0, Launch(true, true)));
  }

  lemma FirstHelper() returns (steps: seq<Step>, s: State)
    ensures Exec(START, steps) == Some(s) && OneStarter(s, Running, 1, true)
  {
    hide Exec, SomeInWindow, SomeStopping;
    steps, s := FirstLaunch();
    steps, s := Take(START, steps, s, OfStart(0, Mark));
    steps, s := Take(START, steps, s, OfStart(0, Ingest(true)));
    steps, s := Take(START, steps, s, OfStart(0, Count));
  }

  /** The only helper was released, and its cleanup is about to stop the collector. */
  predicate AboutToStop(s: State) {
    && |s.starters| == 1 && s.startupMu.None? && s.cleanups == [Cleanup(0, AtStop)]
    && s.refs == 0 && s.process.up && !s.process.adopted
  }

  lemma LastRelease() returns (steps: seq<Step>, s: State)
    ensures Exec(START, steps) == Some(s) && AboutToStop(s)
  {
    hide Exec, SomeInWindow, SomeStopping;
    steps, s := FirstHelper();
    steps, s := Take(START, steps, s, EnterCleanup(0));
    steps, s := Take(START, steps, s, OfCleanup(0, Close));
    steps, s := Take(START, steps, s, OfCleanup(0, Decrement));
  }

  /** A second Start call has found the collector healthy meanwhile, and counted its helper. */
  predicate SecondCounted(s: State) {
    |s.cleanups| == 1 && s.cleanups[0] == Cleanup(0, AtStop) && |s.starters| == 2 && s.refs == 1 && s.process.adopted
  }

  lemma SecondHelper() returns (steps: seq<Step>, s: State)
    ensures Exec(START, steps) == Some(s) && SecondCounted(s)
  {
    hide Exec, SomeInWindow, SomeStopping;
    steps, s := LastRelease();
    steps, s := Take(START, steps, s, EnterStart);
    steps, s := Take(START, steps, s, OfStart(1, Lock));
    steps, s := Take(START, steps, s, OfStart(1, Read));
    steps, s := Take(START, steps, s, OfStart(1, Health(true)));
    steps, s := Take(START, steps, s, OfStart(1, Adopt));
    steps, s := Take(START, steps, s, OfStart(1, Ingest(true)));
    steps, s := Take(START, steps, s, OfStart(1, Count));
  }

  /** Cleanup does not take startupMu, so it can stop the collector that a new helper has just
      adopted: the count is then positive, and the collector is down. */
  lemma OverlapStopsAdoptedCollector() returns (steps: seq<Step>, s: State)
    ensures Initial(START) && Exec(START, steps) == Some(s)
    ensures s.refs > 0 && !s.process.up && s.process.stoppedAdopted
  {
    steps, s := SecondHelper();
    steps, s := Take(START, steps, s, OfCleanup(0, Stop(true, false)));
  }

  // ---- Why a stop can meet an adopted collector without any overlap -------------------------

  const HEALTHY := START.(process := Process(true, false, false, false))

  const ADOPTED := Process(true, true, false, false)

  lemma QuietStart(s: State, step: Step)
    requires Enabled(s, step) && !step.OfCleanup?
    requires forall c | 0 <= c < |s.cleanups| :: s.cleanups[c].pc.Ended?
    ensures Apply(s, step) == Effect(s, step)
  {
    hide SomeInWindow, StartEnabled, NextPc, ApplyStart;
    var t := Effect(s, step);
    if step.OfStart? {
      StartShape(s, step.i, step.act);
    }
    assert forall c | 0 <= c < |t.cleanups| :: t.cleanups[c].pc.Ended? || t.cleanups[c].pc.AtClose?;
    assert !SomeStopping(t);
  }

  lemma QuietCleanup(s: State, c: nat, act: CleanupAct)
    requires Enabled(s, OfCleanup(c, act))
    requires forall i | 0 <= i < |s.starters| :: s.starters[i].pc.Running?
    ensures Apply(s, OfCleanup(c, act)) == Effect(s, OfCleanup(c, act))
  {
    hide SomeStopping, ApplyCleanup, NextCleanup;
    var t := Effect(s, OfCleanup(c, act));
    CleanupShape(s, c, act);
    assert forall i | 0 <= i < |t.starters| :: t.starters[i].pc.Running?;
    assert !SomeInWindow(t);
  }

  /** A step in which no cleanup and no Start call meet. */
  lemma TakeQuiet(s0: State, steps: seq<Step>, s: State, step: Step) returns (steps': seq<Step>, s': State)
    requires Exec(s0, steps) == Some(s) && Enabled(s, step)
    requires step.OfCleanup? ==> forall i | 0 <= i < |s.starters| :: s.starters[i].pc.Running?
    requires !step.OfCleanup? ==> forall c | 0 <= c < |s.cleanups| :: s.cleanups[c].pc.Ended?
    ensures steps' == steps + [step] && s' == Effect(s, step) && Exec(s0, steps') == Some(s')
  {
    steps', s' := Take(s0, steps, s, step);
    hide Apply, Effect, SomeInWindow, SomeStopping;
    if step.OfCleanup? {
      QuietCleanup(s, step.c, step.cleanup);
    } else {
      QuietStart(s, step);
    }
  }

  const COUNTED := Starter(Running, false, None, false)
  const RELEASED := Starter(Running, true, Some(0), true)

  lemma FirstCheck() returns (steps: seq<Step>, s: State)
    ensures Exec(HEALTHY, steps) == Some(s)
    ensures s == HEALTHY.(starters := [Starter(AtHealth, false, None, false)], startupMu := Some(0))
  {
    hide Exec, Apply, SomeInWindow, SomeStopping;
    EmptyRun(HEALTHY);
    steps, s := [], HEALTHY;
    steps, s := TakeQuiet(HEALTHY, steps, s, EnterStart);
    steps, s := TakeQuiet(HEALTHY, steps, s, OfStart(0, Lock));
    steps, s := TakeQuiet(HEALTHY, steps, s, OfStart(0, Read));
  }

  lemma Adopted() returns (steps: seq<Step>, s: State)
    ensures Exec(HEALTHY, steps) == Some(s)
    ensures s ==
      HEALTHY.(starters := [Starter(AtIngest(false), false, None, false)], startupMu := Some(0), process := ADOPTED)
  {
    hide Exec, Apply, SomeInWindow, SomeStopping;
    steps, s := FirstCheck();
    steps, s := TakeQuiet(HEALTHY, steps, s, OfStart(0, Health(true)));
    steps, s := TakeQuiet(HEALTHY, steps, s, OfStart(0, Adopt));
  }

  lemma AdoptAndCount() returns (steps: seq<Step>, s: State)
    ensures Exec(HEALTHY, steps) == Some(s)
    ensures s == HEALTHY.(starters := [COUNTED], refs := 1, process := ADOPTED)
  {
    hide Exec, Apply, SomeInWindow, SomeStopping;
    steps, s := Adopted();
    steps, s := TakeQuiet(HEALTHY, steps, s, OfStart(0, Ingest(true)));
    steps, s := TakeQuiet(HEALTHY, steps, s, OfStart(0, Count));
  }

  lemma EmptyRun(s0: State)
    ensures Exec(s0, []) == Some(s0)
  {
  }

  lemma AdoptAndRelease() returns (steps: seq<Step>, s: State)
    ensures Exec(HEALTHY, steps) == Some(s)
    ensures s == HEALTHY.(starters := [RELEASED], cleanups := [Cleanup(0, Ended)], process := ADOPTED)
  {
    hide Exec, Apply, SomeInWindow, SomeStopping;
    steps, s := AdoptAndCount();
    steps, s := TakeQuiet(HEALTHY, steps, s, EnterCleanup(0));
    steps, s := TakeQuiet(HEALTHY, steps, s, OfCleanup(0, Close));
    steps, s := TakeQuiet(HEALTHY, steps, s, OfCleanup(0, Decrement));
  }

  /** A second Start call, up to the health check, which fails although the collector is up. */
  lemma UnluckyCheck() returns (steps: seq<Step>, s: State)
    ensures Exec(HEALTHY, steps) == Some(s)
    ensures s == HEALTHY.(starters := [RELEASED, Starter(AtLaunch, false, None, false)],
      cleanups := [Cleanup(0, Ended)], startupMu := Some(1), process := ADOPTED)
  {
    hide Exec, Apply, SomeInWindow, SomeStopping;
    steps, s := AdoptAndRelease();
    steps, s := TakeQuiet(HEALTHY, steps, s, EnterStart);
    steps, s := TakeQuiet(HEALTHY, steps, s, OfStart(1, Lock));
    steps, s := TakeQuiet(HEALTHY, steps, s, OfStart(1, Read));
    steps, s := TakeQuiet(HEALTHY, steps, s, OfStart(1, Health(false)));
  }

  /** The start command succeeds on top of it. */
  lemma StartOver() returns (steps: seq<Step>, s: State)
    ensures Exec(HEALTHY, steps) == Some(s)
    ensures s == HEALTHY.(starters := [RELEASED, COUNTED], cleanups := [Cleanup(0, Ended)],
      refs := 1, started := true, process := Process(true, true, true, false))
  {
    hide Exec, Apply, SomeInWindow, SomeStopping;
    steps, s := UnluckyCheck();
    steps, s := TakeQuiet(HEALTHY, steps, s, OfStart(1, Launch(true, true)));
    steps, s := TakeQuiet(HEALTHY, steps, s, OfStart(1, Mark));
    steps, s := TakeQuiet(HEALTHY, steps, s, OfStart(1, Ingest(true)));
    steps, s := TakeQuiet(HEALTHY, steps, s, OfStart(1, Count));
  }

  /** A collector that was found healthy, and has been up since, is stopped by the package although no
      cleanup overlaps a start: one failed health check is enough. */
  lemma StartOverStopsAdoptedCollector() returns (steps: seq<Step>, s: State)
    ensures Initial(HEALTHY) && Exec(HEALTHY, steps) == Some(s)
    ensures !s.overlapped && s.process.stoppedAdopted && !s.process.up
  {
    hide Exec, Apply, SomeInWindow, SomeStopping;
    steps, s := StartOver();
    steps, s := TakeQuiet(HEALTHY, steps, s, EnterCleanup(1));
    steps, s := TakeQuiet(HEALTHY, steps, s, OfCleanup(1, Close));
    steps, s := TakeQuiet(HEALTHY, steps, s, OfCleanup(1, Decrement));
    steps, s := TakeQuiet(HEALTHY, steps, s, OfCleanup(1, Stop(true, false)));
  }
}
