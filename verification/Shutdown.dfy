/** The Shutdown protocol (cleanup.go): any number of concurrent and re-entrant callers.

  `mu` is held in two short critical sections and released while the closures run. Every atomic
  step of a call is a transition; the scheduler and the errors of the closures are arbitrary.
 */
module Shutdown {
  import opened Values

  // ---- Joined errors ------------------------------------------------------------------------

  datatype Error = Leaf(id: nat) | Joined(parts: seq<Error>)

  function Parts<T>(e: Option<T>): seq<T> {
    if e.None? then [] else [e.value]
  }

  /** errors.Join of two errors: nil only if both are, otherwise a new node with the non-nil ones. */
  function JoinTwo(a: Option<Error>, b: Option<Error>): Option<Error> {
    if a.None? && b.None? then None else Some(Joined(Parts(a) + Parts(b)))
  }

  /** The error that callAll builds when its closures return `results`. */
  function JoinAll(results: seq<Option<Error>>): Option<Error> {
    if results == [] then None
    else JoinTwo(JoinAll(results[..|results| - 1]), results[|results| - 1])
  }

  function Leaves(e: Error): seq<nat> {
    match e
    case Leaf(id) => [id]
    case Joined(parts) => AllLeaves(parts)
  }

  function AllLeaves(es: seq<Error>): seq<nat> {
    if es == [] then [] else Leaves(es[0]) + AllLeaves(es[1..])
  }

  /** The leaves of the errors in a list of results, in order. */
  function ResultLeaves(results: seq<Option<Error>>): seq<nat> {
    if results == [] then []
    else ResultLeaves(results[..|results| - 1]) + AllLeaves(Parts(results[|results| - 1]))
  }

  lemma AllLeavesOfTwo(a: seq<Error>, b: seq<Error>)
    requires |a| <= 1
    ensures AllLeaves(a + b) == AllLeaves(a) + AllLeaves(b)
  {
    if a == [] {
      assert a + b == b;
    } else {
      assert (a + b)[0] == a[0] && (a + b)[1..] == b && a[1..] == [];
    }
  }

  lemma OneLeaf(es: seq<Error>)
    ensures AllLeaves([Joined(es)]) == AllLeaves(es)
  {
    assert [Joined(es)][1..] == [];
  }

  lemma JoinTwoLeaves(x: Option<Error>, y: Option<Error>)
    ensures JoinTwo(x, y).None? <==> x.None? && y.None?
    ensures AllLeaves(Parts(JoinTwo(x, y))) == AllLeaves(Parts(x)) + AllLeaves(Parts(y))
  {
    AllLeavesOfTwo(Parts(x), Parts(y));
    OneLeaf(Parts(x) + Parts(y));
  }

  /** The joined error is nil exactly if every closure returned nil, and its flattened leaves are
      the errors of the closures in call order, however deeply Join nested them. */
  lemma {:induction false} JoinAllMeaning(results: seq<Option<Error>>)
    ensures JoinAll(results).None? <==> forall r | r in results :: r.None?
    ensures AllLeaves(Parts(JoinAll(results))) == ResultLeaves(results)
  {
    if results != [] {
      hide JoinTwo, Parts, AllLeaves;
      var init, last := results[..|results| - 1], results[|results| - 1];
      JoinAllMeaning(init);
      JoinTwoLeaves(JoinAll(init), last);
      assert results == init + [last];
    }
  }

  /** The indices below `n` of the closures that are not nil. */
  function NonNil(list: seq<bool>, n: nat): seq<nat>
    requires n <= |list|
  {
    if n == 0 then [] else NonNil(list, n - 1) + if list[n - 1] then [n - 1] else []
  }

  lemma {:induction false} NonNilInOrder(list: seq<bool>, n: nat)
    requires n <= |list|
    ensures forall i: int :: i in NonNil(list, n) <==> 0 <= i < n && list[i]
    ensures forall j, k | 0 <= j < k < |NonNil(list, n)| :: NonNil(list, n)[j] < NonNil(list, n)[k]
  {
    if n > 0 {
      NonNilInOrder(list, n - 1);
      var before := NonNil(list, n - 1);
      assert forall j | 0 <= j < |before| :: before[j] in before;
    }
  }

  /** callAll. A call is None if the function is nil, otherwise it holds what the function returns. */
  method CallAll(calls: seq<Option<Option<Error>>>) returns (joined: Option<Error>, ghost returns_: seq<Option<Error>>)
    ensures returns_ == Outcomes(calls)
    ensures joined == JoinAll(Outcomes(calls))
  {
    joined := None;
    returns_ := [];
    for i := 0 to |calls|
      invariant returns_ == Outcomes(calls[..i])
      invariant joined == JoinAll(returns_)
    {
      assert calls[..i + 1][..i] == calls[..i];
      if calls[i].Some? {
        joined := JoinTwo(joined, calls[i].value);
        assert (returns_ + [calls[i].value])[..|returns_|] == returns_;
        returns_ := returns_ + [calls[i].value];
      }
    }
    assert calls[..|calls|] == calls;
  }

  function Outcomes(calls: seq<Option<Option<Error>>>): seq<Option<Error>> {
    if calls == [] then []
    else Outcomes(calls[..|calls| - 1]) + Parts(calls[|calls| - 1])
  }

  // ---- State --------------------------------------------------------------------------------

  type CallId = nat

  datatype Kind = ShutdownCall | FlushCall

  datatype Pc =
    | AtLock
    | AtTest                                  // holds mu
    | AtUnlock(answer: Option<Option<Error>>) // holds mu; None if this call goes on to shut down
    | Between(next: nat)                      // in callAll, before closure `next`
    | Inside(current: nat)                    // closure `current` is running
    | AtRelock
    | AtPublish                               // holds mu
    | AtSecondUnlock                          // holds mu
    | Done(result: Option<Error>)

  /** One call of Shutdown or ForceFlush. A re-entrant call names the call whose closure made it.
      The last three components are history. */
  datatype Call = Call(
    kind: Kind, parent: Option<CallId>, pc: Pc, joined: Option<Error>,
    returns_: seq<Option<Error>>, entered: seq<nat>, sawPublished: bool)

  /** `mu`, `shutDown` and `shutdownErr` are the fields of the object; the rest is history. */
  datatype State = State(
    calls: seq<Call>, mu: Option<CallId>, shutDown: bool, shutdownErr: Option<Error>,
    winner: Option<CallId>, published: bool, started: seq<nat>)

  /** Which functions of the two lists are not nil. */
  datatype Closures = Closures(flush: seq<bool>, shutdown: seq<bool>)

  function ListOf(p: Closures, kind: Kind): seq<bool> {
    if kind.FlushCall? then p.flush else p.shutdown
  }

  const INITIAL := State([], None, false, None, None, false, [])

  datatype Step =
    | Enter(kind: Kind, parent: Option<CallId>)
    | Lock(c: CallId) | Test(c: CallId) | Unlock(c: CallId)
    | Skip(c: CallId) | Start(c: CallId) | Return(c: CallId, err: Option<Error>) | Finish(c: CallId)
    | Relock(c: CallId) | Publish(c: CallId) | SecondUnlock(c: CallId)

  predicate ChildrenDone(s: State, c: CallId) {
    forall q | 0 <= q < |s.calls| && s.calls[q].parent == Some(c) :: s.calls[q].pc.Done?
  }

  predicate Enabled(p: Closures, s: State, step: Step) {
    if step.Enter? then
      step.parent.Some? ==> step.parent.value < |s.calls| && s.calls[step.parent.value].pc.Inside?
    else
      && step.c < |s.calls|
      && var k := s.calls[step.c];
        var list := ListOf(p, k.kind);
        match step
        case Lock(_) => k.pc.AtLock? && s.mu.None?
        case Test(_) => k.pc.AtTest?
        case Unlock(_) => k.pc.AtUnlock?
        case Skip(_) => k.pc.Between? && k.pc.next < |list| && !list[k.pc.next]
        case Start(_) => k.pc.Between? && k.pc.next < |list| && list[k.pc.next]
        case Return(c, _) => k.pc.Inside? && ChildrenDone(s, c)
        case Finish(_) => k.pc.Between? && k.pc.next >= |list|
        case Relock(_) => k.pc.AtRelock? && s.mu.None?
        case Publish(_) => k.pc.AtPublish?
        case SecondUnlock(_) => k.pc.AtSecondUnlock?
        case Enter(_, _) => true
  }

  function Put(s: State, c: CallId, k: Call): State
    requires c < |s.calls|
  {
    s.(calls := s.calls[c := k])
  }

  function Apply(p: Closures, s: State, step: Step): State
    requires Enabled(p, s, step)
  {
    match step
    case Enter(kind, parent) =>
      s.(calls := s.calls + [Call(kind, parent, if kind.FlushCall? then Between(0) else AtLock, None, [], [], false)])
    case Lock(c) => Put(s, c, s.calls[c].(pc := AtTest)).(mu := Some(c))
    case Test(c) =>
      if s.shutDown then
        Put(s, c, s.calls[c].(pc := AtUnlock(Some(s.shutdownErr)), sawPublished := s.published))
      else
        Put(s, c, s.calls[c].(pc := AtUnlock(None))).(shutDown := true, winner := Some(c))
    case Unlock(c) =>
      var answer := s.calls[c].pc.answer;
      Put(s, c, s.calls[c].(pc := if answer.Some? then Done(answer.value) else Between(0))).(mu := None)
    case Skip(c) => Put(s, c, s.calls[c].(pc := Between(s.calls[c].pc.next + 1)))
    case Start(c) =>
      var k := s.calls[c];
      var i := k.pc.next;
      Put(s, c, k.(pc := Inside(i), entered := k.entered + [i]))
        .(started := if k.kind.ShutdownCall? then s.started + [i] else s.started)
    case Return(c, err) =>
      var k := s.calls[c];
      Put(s, c, k.(pc := Between(k.pc.current + 1), joined := JoinTwo(k.joined, err), returns_ := k.returns_ + [err]))
    case Finish(c) =>
      var k := s.calls[c];
      Put(s, c, k.(pc := if k.kind.FlushCall? then Done(k.joined) else AtRelock))
    case Relock(c) => Put(s, c, s.calls[c].(pc := AtPublish)).(mu := Some(c))
    case Publish(c) =>
      Put(s, c, s.calls[c].(pc := AtSecondUnlock)).(shutdownErr := s.calls[c].joined, published := true)
    case SecondUnlock(c) => Put(s, c, s.calls[c].(pc := Done(s.calls[c].joined))).(mu := None)
  }

  // ---- Runs ---------------------------------------------------------------------------------

  /** The state after `steps` from the initial state; None if some step is not enabled. */
  function Exec(p: Closures, steps: seq<Step>): Option<State> {
    if steps == [] then Some(INITIAL)
    else
      var before := Exec(p, steps[..|steps| - 1]);
      var step := steps[|steps| - 1];
      if before.None? || !Enabled(p, before.value, step) then None
      else Some(Apply(p, before.value, step))
  }

  // ---- Invariant ----------------------------------------------------------------------------

  predicate Holds(pc: Pc) {
    pc.AtTest? || pc.AtUnlock? || pc.AtPublish? || pc.AtSecondUnlock?
  }

  /** How far callAll has come: which closures it entered and how many of them returned. */
  predicate Progress(list: seq<bool>, k: Call) {
    match k.pc
    case Between(i) => i <= |list| && k.entered == NonNil(list, i) && |k.returns_| == |k.entered|
    case Inside(i) => i < |list| && list[i] && k.entered == NonNil(list, i + 1) && |k.returns_| == |k.entered| - 1
    case AtRelock | AtPublish | AtSecondUnlock | Done(_) =>
        k.entered == NonNil(list, |list|) && |k.returns_| == |k.entered|
    case _ => k.entered == [] && k.returns_ == []
  }

  predicate CallInv(p: Closures, s: State, c: CallId)
    requires c < |s.calls|
  {
    var k := s.calls[c];
    && (k.parent.Some? ==> k.parent.value < c)
    && (Holds(k.pc) <==> s.mu == Some(c))
    && k.joined == JoinAll(k.returns_)
    && (k.sawPublished ==> s.published)
    && if k.kind.FlushCall? then
        && s.winner != Some(c) && Progress(p.flush, k)
        && (k.pc.Between? || k.pc.Inside? || k.pc == Done(k.joined))
      else if s.winner == Some(c) then
        && Progress(p.shutdown, k)
        && !k.pc.AtLock? && !k.pc.AtTest? && (k.pc.AtUnlock? ==> k.pc.answer.None?)
        && (s.published <==> k.pc.AtSecondUnlock? || k.pc.Done?)
        && (k.pc.Done? ==> k.pc.result == k.joined)
      else
        && k.entered == [] && k.returns_ == []
        && (var answer := if k.sawPublished then s.shutdownErr else None;
          k.pc.AtLock? || k.pc.AtTest? || k.pc == AtUnlock(Some(answer)) || k.pc == Done(answer))
        && (k.pc.AtLock? || k.pc.AtTest? ==> !k.sawPublished)
        && (k.pc.AtUnlock? || k.pc.Done? ==> s.winner.Some?)
  }

  ghost predicate Inv(p: Closures, s: State) {
    && (forall c | 0 <= c < |s.calls| :: CallInv(p, s, c))
    && (s.mu.Some? ==> s.mu.value < |s.calls|)
    && (s.shutDown <==> s.winner.Some?)
    && (match s.winner
        case None => s.started == [] && !s.published
        case Some(w) =>
          && w < |s.calls| && s.calls[w].kind.ShutdownCall? && s.started == s.calls[w].entered
          && (s.published ==> s.shutdownErr == s.calls[w].joined))
    && (!s.published ==> s.shutdownErr == None)
  }

  lemma EnterKeepsCalls(p: Closures, s: State, step: Step)
    requires Inv(p, s) && Enabled(p, s, step) && step.Enter?
    ensures forall q | 0 <= q < |Apply(p, s, step).calls| :: CallInv(p, Apply(p, s, step), q)
  {
    var s' := Apply(p, s, step);
    forall q | 0 <= q < |s'.calls| ensures CallInv(p, s', q) {
      assert q < |s.calls| ==> CallInv(p, s, q) && s'.calls[q] == s.calls[q];
    }
  }

  lemma LockStepKeepsOwnCall(p: Closures, s: State, step: Step)
    requires Inv(p, s) && Enabled(p, s, step) && !step.Enter?
    requires !step.Skip? && !step.Start? && !step.Return? && !step.Finish?
    ensures CallInv(p, Apply(p, s, step), step.c)
  {
    hide JoinAll;
    assert CallInv(p, s, step.c);
  }

  lemma CallAllStepKeepsOwnCall(p: Closures, s: State, step: Step)
    requires Inv(p, s) && Enabled(p, s, step)
    requires step.Skip? || step.Start?
    ensures CallInv(p, Apply(p, s, step), step.c)
  {
    hide JoinTwo, JoinAll, NonNil;
    var k := s.calls[step.c];
    assert CallInv(p, s, step.c);
    NonNilStep(ListOf(p, k.kind), k.pc.next);
  }

  lemma FinishKeepsOwnCall(p: Closures, s: State, c: CallId)
    requires Inv(p, s) && Enabled(p, s, Finish(c))
    ensures CallInv(p, Apply(p, s, Finish(c)), c)
  {
    hide JoinTwo, JoinAll, NonNil;
    assert CallInv(p, s, c);
  }

  lemma ReturnKeepsOwnCall(p: Closures, s: State, c: CallId, err: Option<Error>)
    requires Inv(p, s) && Enabled(p, s, Return(c, err))
    ensures CallInv(p, Apply(p, s, Return(c, err)), c)
  {
    hide JoinTwo, JoinAll, NonNil;
    assert CallInv(p, s, c);
    JoinAllStep(s.calls[c].returns_, err);
  }

  lemma JoinAllStep(results: seq<Option<Error>>, err: Option<Error>)
    ensures JoinAll(results + [err]) == JoinTwo(JoinAll(results), err)
  {
    assert (results + [err])[..|results|] == results;
  }

  lemma NonNilStep(list: seq<bool>, i: nat)
    requires i < |list|
    ensures NonNil(list, i + 1) == NonNil(list, i) + if list[i] then [i] else []
  {
  }

  lemma StepKeepsOtherCall(p: Closures, s: State, step: Step, q: CallId)
    requires Inv(p, s) && Enabled(p, s, step) && !step.Enter?
    requires q < |s.calls| && q != step.c
    ensures CallInv(p, Apply(p, s, step), q)
  {
    hide JoinTwo, JoinAll, NonNil, Progress;
    assert CallInv(p, s, q);
    assert CallInv(p, s, step.c);
  }

  lemma StepKeepsInv(p: Closures, s: State, step: Step)
    requires Inv(p, s) && Enabled(p, s, step)
    ensures Inv(p, Apply(p, s, step))
  {
    hide JoinTwo, JoinAll, NonNil, Progress;
    if step.Enter? {
      EnterKeepsCalls(p, s, step);
    } else {
      assert CallInv(p, s, step.c);
      if step.Return? {
        ReturnKeepsOwnCall(p, s, step.c, step.err);
      } else if step.Finish? {
        FinishKeepsOwnCall(p, s, step.c);
      } else if step.Skip? || step.Start? {
        CallAllStepKeepsOwnCall(p, s, step);
      } else {
        LockStepKeepsOwnCall(p, s, step);
      }
      forall q | 0 <= q < |s.calls| ensures CallInv(p, Apply(p, s, step), q) {
        if q != step.c {
          StepKeepsOtherCall(p, s, step, q);
        }
      }
    }
  }

  lemma {:induction false} RunKeepsInv(p: Closures, steps: seq<Step>)
    requires Exec(p, steps).Some?
    ensures Inv(p, Exec(p, steps).value)
  {
    if steps != [] {
      var n := |steps| - 1;
      RunKeepsInv(p, steps[..n]);
      StepKeepsInv(p, Exec(p, steps[..n]).value, steps[n]);
    }
  }

  // ---- Theorems about every run -------------------------------------------------------------

  /** In every interleaving, the shutdown closures are started in list order, none twice and none
      that is nil, and all of them by one call. */
  lemma AtMostOnce(p: Closures, steps: seq<Step>)
    requires Exec(p, steps).Some?
    ensures var s := Exec(p, steps).value;
      && (forall j, k | 0 <= j < k < |s.started| :: s.started[j] < s.started[k])
      && (forall i | i in s.started :: i < |p.shutdown| && p.shutdown[i])
      && (forall c | 0 <= c < |s.calls| && s.calls[c].kind.ShutdownCall? && s.calls[c].entered != [] ::
            s.winner == Some(c) && s.calls[c].entered == s.started)
  {
    RunKeepsInv(p, steps);
    var s := Exec(p, steps).value;
    if s.winner.Some? {
      var w := s.calls[s.winner.value];
      assert CallInv(p, s, s.winner.value);
      var n := match w.pc case AtUnlock(_) => 0 case Between(i) => i case Inside(i) => i + 1 case _ => |p.shutdown|;
      assert w.entered == NonNil(p.shutdown, n);
      NonNilInOrder(p.shutdown, n);
    }
    forall c | 0 <= c < |s.calls| && s.calls[c].kind.ShutdownCall? && s.calls[c].entered != []
      ensures s.winner == Some(c) && s.calls[c].entered == s.started
    {
      assert CallInv(p, s, c);
    }
  }

  /** The closures started so far are the non-nil ones up to some place of the list, and all of them once
      the winner is done. */
  lemma StartedIsPrefix(p: Closures, steps: seq<Step>) returns (n: nat)
    requires Exec(p, steps).Some?
    ensures n <= |p.shutdown| && Exec(p, steps).value.started == NonNil(p.shutdown, n)
    ensures WinnerDone(Exec(p, steps).value) ==> n == |p.shutdown|
  {
    hide JoinAll, JoinTwo;
    RunKeepsInv(p, steps);
    var s := Exec(p, steps).value;
    n := 0;
    if s.winner.Some? {
      var w := s.calls[s.winner.value];
      assert CallInv(p, s, s.winner.value);
      n := StartedBefore(p, w.pc);
    }
  }

  /** The place in the list of closures that a winner has reached. */
  function StartedBefore(p: Closures, pc: Pc): nat {
    match pc
    case AtUnlock(_) => 0
    case Between(i) => i
    case Inside(i) => i + 1
    case _ => |p.shutdown|
  }

  /** No closure ever runs while its caller holds the mutex, and whoever holds it is in a critical
      section that it can leave on its own. */
  lemma ClosuresRunUnlocked(p: Closures, steps: seq<Step>, c: CallId)
    requires Exec(p, steps).Some? && c < |Exec(p, steps).value.calls|
    ensures var s := Exec(p, steps).value;
      && (s.calls[c].pc.Inside? ==> s.mu != Some(c))
      && (s.mu == Some(c) ==>
            || Enabled(p, s, Test(c)) || Enabled(p, s, Unlock(c))
            || Enabled(p, s, Publish(c)) || Enabled(p, s, SecondUnlock(c)))
  {
    RunKeepsInv(p, steps);
    assert CallInv(p, Exec(p, steps).value, c);
  }

  predicate Finished(s: State) {
    forall c | 0 <= c < |s.calls| :: s.calls[c].pc.Done?
  }

  /** The step that call `c` can take when neither the mutex nor a re-entrant call is in its way. */
  function NextStep(p: Closures, s: State, c: CallId): Step
    requires c < |s.calls| && !s.calls[c].pc.Done?
  {
    var list := ListOf(p, s.calls[c].kind);
    match s.calls[c].pc
    case AtLock => Lock(c)
    case AtTest => Test(c)
    case AtUnlock(_) => Unlock(c)
    case Between(i) => if i >= |list| then Finish(c) else if list[i] then Start(c) else Skip(c)
    case Inside(_) => Return(c, None)
    case AtRelock => Relock(c)
    case AtPublish => Publish(c)
    case AtSecondUnlock => SecondUnlock(c)
  }

  lemma NewestUnfinished(s: State) returns (c: CallId)
    requires !Finished(s)
    ensures c < |s.calls| && !s.calls[c].pc.Done? && forall q | c < q < |s.calls| :: s.calls[q].pc.Done?
  {
    c := |s.calls| - 1;
    while s.calls[c].pc.Done?
      invariant 0 <= c < |s.calls| && forall q | c < q < |s.calls| :: s.calls[q].pc.Done?
      decreases c
    {
      if c == 0 {
        assert Finished(s);
      }
      c := c - 1;
    }
  }

  /** Deadlock freedom: in every reachable state with an unfinished call, some call can take a step
      without a new one entering, even when closures call Shutdown again. */
  lemma NeverStuck(p: Closures, steps: seq<Step>) returns (step: Step)
    requires Exec(p, steps).Some? && !Finished(Exec(p, steps).value)
    ensures !step.Enter? && Enabled(p, Exec(p, steps).value, step)
  {
    RunKeepsInv(p, steps);
    var s := Exec(p, steps).value;
    if s.mu.Some? {
      assert CallInv(p, s, s.mu.value);
      step := NextStep(p, s, s.mu.value);
    } else {
      var c := NewestUnfinished(s);
      forall q | 0 <= q < |s.calls| && s.calls[q].parent == Some(c) ensures s.calls[q].pc.Done? {
        assert CallInv(p, s, q);
      }
      step := NextStep(p, s, c);
    }
  }

  /** The number of steps that a call can still take. */
  function StepsLeft(p: Closures, k: Call): nat {
    var n := |ListOf(p, k.kind)|;
    match k.pc
    case AtLock => 2 * n + 8
    case AtTest => 2 * n + 7
    case AtUnlock(_) => 2 * n + 6
    case Between(i) => if i <= n then 2 * (n - i) + 5 else 5
    case Inside(i) => if i <= n then 2 * (n - i) + 4 else 4
    case AtRelock => 4
    case AtPublish => 3
    case AtSecondUnlock => 2
    case Done(_) => 0
  }

  function Work(p: Closures, calls: seq<Call>): nat {
    if calls == [] then 0 else StepsLeft(p, calls[0]) + Work(p, calls[1..])
  }

  lemma {:induction false} WorkOfUpdate(p: Closures, calls: seq<Call>, c: nat, k: Call)
    requires c < |calls| && StepsLeft(p, k) < StepsLeft(p, calls[c])
    ensures Work(p, calls[c := k]) < Work(p, calls)
  {
    if c > 0 {
      assert calls[c := k][1..] == calls[1..][c - 1 := k];
      WorkOfUpdate(p, calls[1..], c - 1, k);
    } else {
      assert calls[c := k][1..] == calls[1..];
    }
  }

  /** The step of a call lowers the number of steps that the call can still take. */
  lemma StepUsesUpWork(p: Closures, s: State, step: Step)
    requires Inv(p, s) && Enabled(p, s, step) && !step.Enter?
    ensures StepsLeft(p, Apply(p, s, step).calls[step.c]) < StepsLeft(p, s.calls[step.c])
  {
    hide JoinTwo, JoinAll, NonNil, Progress, CallInv;
    PcInRange(p, s, step.c);
  }

  lemma PcInRange(p: Closures, s: State, c: CallId)
    requires Inv(p, s) && c < |s.calls|
    ensures var k := s.calls[c];
      && (k.pc.Between? ==> k.pc.next <= |ListOf(p, k.kind)|)
      && (k.pc.Inside? ==> k.pc.current < |ListOf(p, k.kind)|)
  {
    hide JoinTwo, JoinAll, NonNil;
    assert CallInv(p, s, c);
  }

  lemma StepChangesOneCall(p: Closures, s: State, step: Step)
    requires Enabled(p, s, step) && !step.Enter?
    ensures Apply(p, s, step).calls == s.calls[step.c := Apply(p, s, step).calls[step.c]]
  {
    hide JoinTwo;
  }

  /** Together with NeverStuck: once no new calls enter, every call finishes, because every step
      uses up work, whatever the scheduler does. */
  lemma EveryStepIsProgress(p: Closures, steps: seq<Step>, step: Step)
    requires Exec(p, steps + [step]).Some? && !step.Enter?
    ensures Exec(p, steps).Some?
    ensures Work(p, Exec(p, steps + [step]).value.calls) < Work(p, Exec(p, steps).value.calls)
  {
    hide Inv, Apply, StepsLeft, Work;
    assert (steps + [step])[..|steps|] == steps;
    var s := Exec(p, steps).value;
    RunKeepsInv(p, steps);
    StepUsesUpWork(p, s, step);
    StepChangesOneCall(p, s, step);
    WorkOfUpdate(p, s.calls, step.c, Apply(p, s, step).calls[step.c]);
  }

  /** Every finished call of Shutdown answers nil or the joined error E of the one winner. It answers
      E exactly if it is the winner, or looked after E was published, or E is nil anyway. */
  lemma ShutdownAnswers(p: Closures, steps: seq<Step>, c: CallId)
    requires Exec(p, steps).Some? && c < |Exec(p, steps).value.calls|
    requires var k := Exec(p, steps).value.calls[c]; k.kind.ShutdownCall? && k.pc.Done?
    ensures var s := Exec(p, steps).value;
      && s.winner.Some? && s.winner.value < |s.calls|
      && var w := s.calls[s.winner.value];
         var k := s.calls[c];
         && (w.pc.Done? ==> w.pc.result == JoinAll(w.returns_) && w.entered == NonNil(p.shutdown, |p.shutdown|))
         && (k.pc.result == None || s.published)
         && (s.published ==>
              (k.pc.result == s.shutdownErr <==> s.winner == Some(c) || k.sawPublished || s.shutdownErr == None))
         && (k.pc.result == None || k.pc.result == s.shutdownErr)
         && (s.published ==> s.shutdownErr == JoinAll(w.returns_))
  {
    RunKeepsInv(p, steps);
    var s := Exec(p, steps).value;
    assert CallInv(p, s, c);
    assert CallInv(p, s, s.winner.value);
  }

  /** The look of call `c` is over, and it saw that there was nothing to do. */
  predicate HasLooked(s: State, c: CallId) {
    && c < |s.calls| && s.calls[c].kind.ShutdownCall? && s.winner.Some? && s.winner != Some(c)
    && !s.calls[c].pc.AtLock? && !s.calls[c].pc.AtTest?
  }

  lemma LookIsOverForGood(p: Closures, s: State, step: Step, c: CallId)
    requires Inv(p, s) && Enabled(p, s, step) && HasLooked(s, c)
    ensures HasLooked(Apply(p, s, step), c)
    ensures Apply(p, s, step).calls[c].sawPublished == s.calls[c].sawPublished
  {
    hide JoinTwo, JoinAll, NonNil, Progress;
    assert CallInv(p, s, c);
  }

  lemma {:induction false} LookLasts(p: Closures, steps: seq<Step>, more: seq<Step>, c: CallId)
    requires Exec(p, steps).Some? && HasLooked(Exec(p, steps).value, c) && Exec(p, steps + more).Some?
    ensures HasLooked(Exec(p, steps + more).value, c)
    ensures Exec(p, steps + more).value.calls[c].sawPublished == Exec(p, steps).value.calls[c].sawPublished
  {
    hide Inv, Apply, HasLooked;
    if more == [] {
      assert steps + more == steps;
    } else {
      var n := |more| - 1;
      assert (steps + more)[..|steps + more| - 1] == steps + more[..n];
      LookLasts(p, steps, more[..n], c);
      RunKeepsInv(p, steps + more[..n]);
      LookIsOverForGood(p, Exec(p, steps + more[..n]).value, more[n], c);
    }
  }

  /** What has been published stays published. */
  predicate SamePublication(s: State, t: State) {
    t.published && t.shutdownErr == s.shutdownErr && t.winner == s.winner
  }

  lemma PublishedForGood(p: Closures, s: State, step: Step)
    requires Inv(p, s) && Enabled(p, s, step) && s.published
    ensures SamePublication(s, Apply(p, s, step))
  {
    hide JoinTwo, JoinAll, NonNil, Progress;
    if step.Publish? {
      assert CallInv(p, s, step.c);
    }
  }

  lemma {:induction false} PublicationLasts(p: Closures, steps: seq<Step>, more: seq<Step>)
    requires Exec(p, steps).Some? && Exec(p, steps).value.published && Exec(p, steps + more).Some?
    ensures SamePublication(Exec(p, steps).value, Exec(p, steps + more).value)
  {
    hide Inv, Apply;
    if more == [] {
      assert steps + more == steps;
    } else {
      var n := |more| - 1;
      assert (steps + more)[..|steps + more| - 1] == steps + more[..n];
      PublicationLasts(p, steps, more[..n]);
      RunKeepsInv(p, steps + more[..n]);
      PublishedForGood(p, Exec(p, steps + more[..n]).value, more[n]);
    }
  }

  /** The look of a losing call decides what it answers at the end of any longer run: the published
      error if there was one when it looked, and otherwise nil, whatever is published later. */
  lemma LookingDecides(p: Closures, steps: seq<Step>, c: CallId, more: seq<Step>)
    requires Exec(p, steps).Some? && Enabled(p, Exec(p, steps).value, Test(c)) && Exec(p, steps).value.shutDown
    requires Exec(p, steps + [Test(c)] + more).Some? && c < |Exec(p, steps + [Test(c)] + more).value.calls|
    requires Exec(p, steps + [Test(c)] + more).value.calls[c].pc.Done?
    ensures var s := Exec(p, steps).value;
      Exec(p, steps + [Test(c)] + more).value.calls[c].pc.result == if s.published then s.shutdownErr else None
  {
    hide Inv, HasLooked, JoinAll;
    var s, looked := Exec(p, steps).value, steps + [Test(c)];
    RunKeepsInv(p, steps);
    Extend(p, steps, Test(c));
    AfterTheLook(p, s, c);
    LookLasts(p, looked, more, c);
    RunKeepsInv(p, looked + more);
    LoserAnswer(p, Exec(p, looked + more).value, c);
    if s.published {
      PublicationLasts(p, looked, more);
    }
  }

  lemma AfterTheLook(p: Closures, s: State, c: CallId)
    requires Inv(p, s) && Enabled(p, s, Test(c)) && s.shutDown
    ensures var t := Apply(p, s, Test(c));
      HasLooked(t, c) && t.calls[c].sawPublished == s.published && SamePublication(s, t) == s.published
  {
    hide JoinTwo, JoinAll, NonNil, Progress;
    assert CallInv(p, s, c);
  }

  lemma LoserAnswer(p: Closures, s: State, c: CallId)
    requires Inv(p, s) && HasLooked(s, c) && s.calls[c].pc.Done?
    ensures s.calls[c].pc.result == if s.calls[c].sawPublished then s.shutdownErr else None
  {
    hide JoinTwo, JoinAll, NonNil, Progress;
    assert CallInv(p, s, c);
  }

  /** A call that entered at `n` or later has not looked yet, or has seen the publication. */
  ghost predicate LateCallsSee(s: State, n: nat) {
    forall c | n <= c < |s.calls| && s.calls[c].kind.ShutdownCall? ::
      s.calls[c].pc.AtLock? || s.calls[c].pc.AtTest? || s.calls[c].sawPublished
  }

  lemma LateStep(p: Closures, s: State, step: Step, n: nat)
    requires Inv(p, s) && Enabled(p, s, step) && s.published && LateCallsSee(s, n)
    ensures LateCallsSee(Apply(p, s, step), n)
  {
    hide CallInv, JoinTwo;
    assert s.shutDown;
  }

  lemma {:induction false} LateRun(p: Closures, steps: seq<Step>, more: seq<Step>)
    requires Exec(p, steps).Some? && Exec(p, steps).value.published && Exec(p, steps + more).Some?
    ensures LateCallsSee(Exec(p, steps + more).value, |Exec(p, steps).value.calls|)
  {
    hide Inv, Apply, LateCallsSee;
    if more == [] {
      assert steps + more == steps;
      NoLateCalls(Exec(p, steps).value);
    } else {
      var n := |more| - 1;
      assert (steps + more)[..|steps + more| - 1] == steps + more[..n];
      LateRun(p, steps, more[..n]);
      PublicationLasts(p, steps, more[..n]);
      RunKeepsInv(p, steps + more[..n]);
      LateStep(p, Exec(p, steps + more[..n]).value, more[n], |Exec(p, steps).value.calls|);
    }
  }

  lemma NoLateCalls(s: State)
    ensures LateCallsSee(s, |s.calls|)
  {
  }

  /** In the caller's terms: a call of Shutdown that is made after the winner has returned, and has
      finished, answers exactly what the winner answered. */
  lemma LateCallsAgree(p: Closures, steps: seq<Step>, more: seq<Step>, c: CallId)
    requires Exec(p, steps).Some? && WinnerDone(Exec(p, steps).value)
    requires Exec(p, steps + more).Some? && |Exec(p, steps).value.calls| <= c < |Exec(p, steps + more).value.calls|
    requires var k := Exec(p, steps + more).value.calls[c]; k.kind.ShutdownCall? && k.pc.Done?
    ensures var s := Exec(p, steps).value;
      Exec(p, steps + more).value.calls[c].pc.result == s.calls[s.winner.value].pc.result
  {
    hide Inv;
    var s, t := Exec(p, steps).value, Exec(p, steps + more).value;
    RunKeepsInv(p, steps);
    WinnerPublished(p, s);
    PublicationLasts(p, steps, more);
    LateRun(p, steps, more);
    RunKeepsInv(p, steps + more);
    LoserAnswer(p, t, c);
  }

  predicate WinnerDone(s: State) {
    s.winner.Some? && s.winner.value < |s.calls| && s.calls[s.winner.value].pc.Done?
  }

  lemma WinnerPublished(p: Closures, s: State)
    requires Inv(p, s) && WinnerDone(s)
    ensures s.published && s.calls[s.winner.value].pc.result == s.shutdownErr
  {
    hide JoinTwo, JoinAll, NonNil, Progress;
    assert CallInv(p, s, s.winner.value);
  }

  /** ForceFlush is not guarded: every finished call has run every flush closure itself. */
  lemma EveryFlushRunsAll(p: Closures, steps: seq<Step>, c: CallId)
    requires Exec(p, steps).Some? && c < |Exec(p, steps).value.calls|
    requires var k := Exec(p, steps).value.calls[c]; k.kind.FlushCall? && k.pc.Done?
    ensures var k := Exec(p, steps).value.calls[c];
      k.entered == NonNil(p.flush, |p.flush|) && k.pc.result == JoinAll(k.returns_)
  {
    RunKeepsInv(p, steps);
    assert CallInv(p, Exec(p, steps).value, c);
  }

  // ---- The documented promise, and where it fails -------------------------------------------

  lemma Extend(p: Closures, steps: seq<Step>, step: Step)
    requires Exec(p, steps).Some? && Enabled(p, Exec(p, steps).value, step)
    ensures Exec(p, steps + [step]) == Some(Apply(p, Exec(p, steps).value, step))
  {
    assert (steps + [step])[..|steps|] == steps;
  }

  const ONE_CLOSURE := Closures([], [true])

  /** The first call is inside the only closure, and the closure has called Shutdown again. */
  predicate Reentered(s: State, second: Pc) {
    && |s.calls| == 2
    && s.calls[0] == Call(ShutdownCall, None, Inside(0), None, [], [0], false)
    && s.calls[1] == Call(ShutdownCall, Some(0), second, None, [], [], false)
    && s.mu == None && s.shutDown && s.shutdownErr == None && !s.published
  }

  lemma ReentrantCall() returns (steps: seq<Step>, s: State)
    ensures Exec(ONE_CLOSURE, steps) == Some(s) && Reentered(s, AtLock)
  {
    s := INITIAL;
    steps := [];
    steps, s := Take(ONE_CLOSURE, steps, s, Enter(ShutdownCall, None));
    steps, s := Take(ONE_CLOSURE, steps, s, Lock(0));
    steps, s := Take(ONE_CLOSURE, steps, s, Test(0));
    steps, s := Take(ONE_CLOSURE, steps, s, Unlock(0));
    steps, s := Take(ONE_CLOSURE, steps, s, Start(0));
    steps, s := Take(ONE_CLOSURE, steps, s, Enter(ShutdownCall, Some(0)));
  }

  lemma ReentrantAnswer() returns (steps: seq<Step>, s: State)
    ensures Exec(ONE_CLOSURE, steps) == Some(s) && Reentered(s, Done(None))
  {
    steps, s := ReentrantCall();
    steps, s := Take(ONE_CLOSURE, steps, s, Lock(1));
    steps, s := Take(ONE_CLOSURE, steps, s, Test(1));
    steps, s := Take(ONE_CLOSURE, steps, s, Unlock(1));
  }

  /** The closure of the first call returned this error; the second call was answered nil. */
  predicate Failing(s: State, e: Error) {
    && |s.calls| == 2 && s.mu == None
    && s.calls[0].kind.ShutdownCall? && s.calls[0].pc.AtRelock? && s.calls[0].joined == Some(Joined([e]))
    && s.calls[1].kind.ShutdownCall? && s.calls[1].pc == Done(None)
  }

  lemma ClosureFails(e: Error) returns (steps: seq<Step>, s: State)
    ensures Exec(ONE_CLOSURE, steps) == Some(s) && Failing(s, e)
  {
    steps, s := ReentrantAnswer();
    assert [] + [e] == [e];
    steps, s := Take(ONE_CLOSURE, steps, s, Return(0, Some(e)));
    steps, s := Take(ONE_CLOSURE, steps, s, Finish(0));
  }

  /** "The same joined error on repeated calls" fails for calls that overlap: a closure that calls
      Shutdown again is answered nil although its own error is what the first call returns. */
  lemma OverlappingCallsDisagree(e: Error) returns (steps: seq<Step>)
    ensures Exec(ONE_CLOSURE, steps).Some?
    ensures var calls := Exec(ONE_CLOSURE, steps).value.calls;
      && |calls| == 2 && calls[0].kind.ShutdownCall? && calls[1].kind.ShutdownCall?
      && calls[0].pc == Done(Some(Joined([e]))) && calls[1].pc == Done(None)
  {
    var s;
    steps, s := ClosureFails(e);
    steps, s := Take(ONE_CLOSURE, steps, s, Relock(0));
    steps, s := Take(ONE_CLOSURE, steps, s, Publish(0));
    steps, s := Take(ONE_CLOSURE, steps, s, SecondUnlock(0));
  }

  lemma Take(p: Closures, steps: seq<Step>, s: State, step: Step) returns (steps': seq<Step>, s': State)
    requires Exec(p, steps) == Some(s) && Enabled(p, s, step)
    ensures steps' == steps + [step] && s' == Apply(p, s, step) && Exec(p, steps') == Some(s')
  {
    Extend(p, steps, step);
    steps', s' := steps + [step], Apply(p, s, step);
  }
}
