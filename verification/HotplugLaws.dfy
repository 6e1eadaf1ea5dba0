/** Consequences that relate several walks. */
module HotplugLaws {
  import opened Wrappers
  import opened HotplugWalks
  import opened HotplugDirect

  /** The same callbacks in reverse order and in the other direction. */
  function Mirror(calls: seq<Call>): seq<Call> {
    if calls == [] then [] else Mirror(calls[1..]) + [calls[0].(bringup := !calls[0].bringup)]
  }

  lemma {:induction false} MirrorConcat(a: seq<Call>, b: seq<Call>)
    ensures Mirror(a + b) == Mirror(b) + Mirror(a)
    decreases |a|
  {
    if a == [] {
      assert a + b == b;
    } else {
      assert (a + b)[1..] == a[1..] + b;
      MirrorConcat(a[1..], b);
    }
  }

  /** Every step between the two states is single-instance and has both callbacks or neither. */
  ghost predicate Symmetric(env: Env, up: bool, from: int, to: int)
    requires InRange(env, up, from, to)
  {
    forall s | (if up then from < s <= to else to < s <= from) ::
      !env.steps[s].multi && env.steps[s].startup == env.steps[s].teardown
  }

  lemma StepMirrors(env: Env, up: bool, s: int)
    requires Known(env, s) && !env.steps[s].multi && env.steps[s].startup == env.steps[s].teardown
    ensures CallsOf(env, !up, s) == Mirror(CallsOf(env, up, s))
  {
    if !Empty(env, up, s) {
      assert Mirror([Call(s, up, None)]) == [Call(s, !up, None)];
    }
  }

  lemma OneStep(env: Env, up: bool, from: int, next: int)
    requires InRange(env, up, from, next) && next == (if up then from + 1 else from - 1)
    ensures Forward(env, up, from, next) == CallsOf(env, up, if up then next else from)
  {
    assert Forward(env, up, next, next) == [];
  }

  lemma NoCalls()
    ensures Mirror([]) == []
  {
  }

  /** Over such steps, walking back is the walk itself, mirrored. */
  lemma {:induction false} WalkBackMirrors(env: Env, up: bool, from: int, to: int)
    requires InRange(env, up, from, to) && Symmetric(env, up, from, to)
    ensures Forward(env, !up, to, from) == Mirror(Forward(env, up, from, to))
    decreases if up then to - from else from - to
  {
    hide CallsOf, Mirror;
    if from == to {
      assert Mirror([]) == [] by { NoCalls(); }
    } else {
      var next := if up then from + 1 else from - 1;
      var s := if up then from + 1 else from;
      WalkBackMirrors(env, up, next, to);
      ForwardSplit(env, up, from, next, to);
      ForwardSplit(env, !up, to, next, from);
      OneStep(env, up, from, next);
      OneStep(env, !up, next, from);
      StepMirrors(env, up, s);
      MirrorConcat(CallsOf(env, up, s), Forward(env, up, next, to));
    }
  }

  // Errors that get lost.

  type Outcome = (seq<Call>, Call) -> int

  /** "Rollback must not fail": callbacks in this direction always succeed. */
  ghost predicate Succeeds(env: Env, bringup: bool) {
    forall history: seq<Call>, c: Call | c.bringup == bringup :: env.outcome(history, c) == 0
  }

  /** In this run of cpuhp_invoke_callback without lastp an instance fails, and 0 comes back. */
  ghost predicate Loses(steps: seq<Step>, up: bool, s: int, outcome: Outcome, history: seq<Call>) {
    var env := Env(steps, outcome);
    && Known(env, s) && !Empty(env, up, s) && steps[s].multi && Succeeds(env, !up)
    && FirstBad(env, history, CallsOf(env, up, s)) < |CallsOf(env, up, s)|
    && Instances(env, up, s, history).0 == 0
  }

  /** The step has an instance before the one that fails, and a callback to undo it with. */
  predicate CanLose(steps: seq<Step>, up: bool, s: int) {
    && 0 <= s < |steps| && steps[s].multi && steps[s].startup && steps[s].teardown && |steps[s].instances| > 1
  }

  /** Callbacks of which only one fails: that of the second instance of step s. */
  function SecondFails(steps: seq<Step>, up: bool, s: int): Outcome
    requires CanLose(steps, up, s)
  {
    var bad := Call(s, up, Some(steps[s].instances[1]));
    (history: seq<Call>, c: Call) => if c == bad then -12 else 0
  }

  lemma SecondLoses(steps: seq<Step>, up: bool, s: int, history: seq<Call>)
    requires CanLose(steps, up, s) && Distinct(steps[s].instances)
    ensures Loses(steps, up, s, SecondFails(steps, up, s), history)
  {
    var env := Env(steps, SecondFails(steps, up, s));
    var calls := CallsOf(env, up, s);
    assert calls[0] == Call(s, up, Some(steps[s].instances[0])) && calls[1] == Call(s, up, Some(steps[s].instances[1]));
    assert FirstBad(env, history, calls) == 1 + FirstBad(env, history + [calls[0]], calls[1..]);
    assert FirstBad(env, history, calls) == 1;
    assert UndoneInstances(env, up, s, 2) == [Call(s, !up, Some(steps[s].instances[0]))];
  }

  /**
   The error of a failing instance can come back as 0, though undo callbacks never fail, exactly for a step with more
   than one instance and an opposite callback: the last successful undo overwrites it.
   */
  lemma ErrorLost(steps: seq<Step>, up: bool, s: int)
    requires 0 <= s < |steps| && steps[s].multi && Distinct(steps[s].instances)
    requires if up then steps[s].startup else steps[s].teardown
    ensures (exists outcome: Outcome, history: seq<Call> :: Loses(steps, up, s, outcome, history)) <==> CanLose(steps, up, s)
  {
    if CanLose(steps, up, s) {
      SecondLoses(steps, up, s, []);
    }
    forall outcome: Outcome, history: seq<Call> | Loses(steps, up, s, outcome, history) ensures CanLose(steps, up, s) {
      FirstBadIs(Env(steps, outcome), history, CallsOf(Env(steps, outcome), up, s));
    }
  }

  /** The whole walk reports success although a callback on it failed. */
  ghost predicate WalkLoses(steps: seq<Step>, up: bool, from: int, to: int, outcome: Outcome, history: seq<Call>) {
    var env := Env(steps, outcome);
    && InRange(env, up, from, to) && Succeeds(env, !up) && !AllZero(env, history, Forward(env, up, from, to))
    && (var d := Direct(env, up, from, to, history, CPUHP_INVALID); d.ret == 0 && d.state == to)
  }

  ghost predicate PassesLosing(steps: seq<Step>, up: bool, from: int, to: int) {
    exists s :: (if up then from < s <= to else to < s <= from) && CanLose(steps, up, s)
  }

  lemma {:induction false} AllStepsPass(env: Env, up: bool, from: int, to: int, trace: seq<Call>)
    requires InRange(env, up, from, to)
    requires forall s: int, h: seq<Call> {:trigger Once(env, up, s, h, CPUHP_INVALID)} | Known(env, s) && !Empty(env, up, s) ::
               Once(env, up, s, h, CPUHP_INVALID).ret == 0 && Once(env, up, s, h, CPUHP_INVALID).fail == CPUHP_INVALID
    ensures Direct(env, up, from, to, trace, CPUHP_INVALID).ret == 0
    decreases if up then to - from else from - to
  {
    hide Once;
    if from != to {
      var s := if up then from + 1 else from;
      AllStepsPass(env, up, After(up, s), to, if Empty(env, up, s) then trace else Once(env, up, s, trace, CPUHP_INVALID).trace);
    }
  }

  lemma SecondPasses(steps: seq<Step>, up: bool, s: int, q: int, h: seq<Call>)
    requires CanLose(steps, up, s) && Distinct(steps[s].instances)
    requires var env := Env(steps, SecondFails(steps, up, s)); Known(env, q) && !Empty(env, up, q)
    ensures var i := Once(Env(steps, SecondFails(steps, up, s)), up, q, h, CPUHP_INVALID); i.ret == 0 && i.fail == CPUHP_INVALID
  {
    var env := Env(steps, SecondFails(steps, up, s));
    if q == s {
      SecondLoses(steps, up, s, h);
    } else if steps[q].multi {
      assert forall i | 0 <= i < |CallsOf(env, up, q)| :: CallsOf(env, up, q)[i].step == q;
      NoneBad(env, h, CallsOf(env, up, q));
    }
  }

  lemma SecondWalks(steps: seq<Step>, up: bool, from: int, to: int, s: int)
    requires CanLose(steps, up, s) && Distinct(steps[s].instances)
    requires InRange(Env(steps, SecondFails(steps, up, s)), up, from, to) && if up then from < s <= to else to < s <= from
    ensures WalkLoses(steps, up, from, to, SecondFails(steps, up, s), [])
  {
    var env := Env(steps, SecondFails(steps, up, s));
    forall q: int, h: seq<Call> | Known(env, q) && !Empty(env, up, q)
      ensures Once(env, up, q, h, CPUHP_INVALID).ret == 0 && Once(env, up, q, h, CPUHP_INVALID).fail == CPUHP_INVALID
    {
      SecondPasses(steps, up, s, q, h);
    }
    AllStepsPass(env, up, from, to, []);
    ForwardContains(env, up, from, s, to);
    var all, i := Forward(env, up, from, to), |Forward(env, up, from, Before(up, s))| + 1;
    assert all[i] == CallsOf(env, up, s)[1] == Call(s, up, Some(steps[s].instances[1]));
    assert env.outcome([] + all[..i], all[i]) != 0;
  }

  lemma LostMeans(env: Env, up: bool, from: int, to: int, history: seq<Call>)
    requires InRange(env, up, from, to) && !AllZero(env, history, Forward(env, up, from, to))
    requires Direct(env, up, from, to, history, CPUHP_INVALID).ret == 0
    ensures PassesLosing(env.steps, up, from, to)
  {
    hide Direct, Forward, AllZero;
    if !Hiding(env, up, from, to, history, CPUHP_INVALID) {
      var s, k := DirectPlain(env, up, from, to, history, CPUHP_INVALID);
    } else {
      var s: int, k: nat, err: int :| Hides(env, up, from, to, history, CPUHP_INVALID, s, k, err);
      assert CanLose(env.steps, up, s);
    }
  }

  /**
   A walk over steps of any kind can report success and reach its target although a callback failed, exactly if it passes
   a step that can lose an error; the loop then goes on as if that step had succeeded.
   */
  lemma WalkLost(steps: seq<Step>, up: bool, from: int, to: int)
    requires InRange(Env(steps, (h: seq<Call>, c: Call) => 0), up, from, to)
    requires forall s | 0 <= s < |steps| :: Distinct(steps[s].instances)
    ensures (exists outcome: Outcome, history: seq<Call> :: WalkLoses(steps, up, from, to, outcome, history))
       <==> PassesLosing(steps, up, from, to)
  {
    if PassesLosing(steps, up, from, to) {
      var s :| (if up then from < s <= to else to < s <= from) && CanLose(steps, up, s);
      SecondWalks(steps, up, from, to, s);
    }
    forall outcome: Outcome, history: seq<Call> | WalkLoses(steps, up, from, to, outcome, history)
      ensures PassesLosing(steps, up, from, to)
    {
      LostMeans(Env(steps, outcome), up, from, to, history);
    }
  }

  lemma UndoSucceeds(env: Env, up: bool, s: int, k: nat, history: seq<Call>, err: int)
    requires Known(env, s) && env.steps[s].multi && 1 < k <= |env.steps[s].instances| && !Empty(env, !up, s) && Succeeds(env, !up)
    ensures LastResult(env, history, UndoneInstances(env, up, s, k), err) == 0
  {
    var undone := UndoneInstances(env, up, s, k);
    assert undone[|undone| - 1].bringup == !up;
  }

  /** What the loop does about a failure that a step hides: it undoes the step's instances and goes on with the next. */
  lemma WalksOn(env: Env, up: bool, from: int, to: int, trace0: seq<Call>, fail0: int, s: int, k: nat, err: int)
    requires InRange(env, up, from, to) && Hides(env, up, from, to, trace0, fail0, s, k, err) && Succeeds(env, !up)
    ensures Direct(env, up, from, to, trace0, fail0)
         == Direct(env, up, After(up, s), to, trace0 + FailedCalls(env, up, from, s, k) + UndoneInstances(env, up, s, k), fail0)
  {
    hide Direct, Forward, AllZero, Succeeds, LastResult, FirstBad;
    var at := Before(up, s);
    var sofar := trace0 + Forward(env, up, from, at);
    PassesSplit(env, up, from, at, After(up, s), fail0);
    DirectSucceeds(env, up, from, at, trace0, fail0);
    DirectSplit(env, up, from, at, to, trace0, fail0);
    EmptySkip(env, up, at);
    DirectStep(env, up, at, s, to, sofar, fail0);
    FirstBadUnique(env, sofar, CallsOf(env, up, s), k, err);
    UndoSucceeds(env, up, s, k, sofar + CallsOf(env, up, s)[..k], err);
    assert sofar + CallsOf(env, up, s)[..k] == trace0 + FailedCalls(env, up, from, s, k);
  }

  const TWO_INSTANCES := [Step(true, true, true, [7, 8])]

  /** A concrete loss: the second instance of a step fails with -12, the first is undone, and 0 is returned. */
  lemma ErrorLostExample(history: seq<Call>)
    ensures var env := Env(TWO_INSTANCES, SecondFails(TWO_INSTANCES, true, 0));
            && env.outcome(history + [Call(0, true, Some(7))], Call(0, true, Some(8))) == -12
            && Instances(env, true, 0, history)
               == (0, history + [Call(0, true, Some(7)), Call(0, true, Some(8)), Call(0, false, Some(7))])
  {
    var env := Env(TWO_INSTANCES, SecondFails(TWO_INSTANCES, true, 0));
    var calls := CallsOf(env, true, 0);
    SecondLoses(TWO_INSTANCES, true, 0, history);
    assert calls == [Call(0, true, Some(7)), Call(0, true, Some(8))];
    FirstBadUnique(env, history, calls, 2, -12);
    assert UndoneInstances(env, true, 0, 2) == [Call(0, false, Some(7))];
    assert calls[..2] == calls;
    assert history + calls + [Call(0, false, Some(7))]
        == history + [Call(0, true, Some(7)), Call(0, true, Some(8)), Call(0, false, Some(7))];
  }

  lemma NoFailure(env: Env, up: bool, from: int, to: int, trace0: seq<Call>, fail0: int,
                  ret: int, s: int, k: nat, state: int, trace: seq<Call>, fail: int)
    requires InRange(env, up, from, to) && AllZero(env, trace0, Forward(env, up, from, to))
    requires !Passes(env, up, from, to, fail0)
    requires Walked(env, up, from, to, trace0, ret, s, k, state, trace) && Injected(env, up, from, to, fail0, ret, s, k, fail)
    ensures ret == 0
  {
    if ret != 0 && k > 0 {
      NotPast(env, up, from, to, trace0, s, k, ret);
    }
  }

  lemma SameFailure(env: Env, history: seq<Call>, calls: seq<Call>, k1: nat, err1: int, k2: nat, err2: int)
    requires FirstFailure(env, history, calls, k1, err1) && FirstFailure(env, history, calls, k2, err2)
    ensures k1 >= k2 && (k1 == k2 ==> err1 == err2)
  {
    assert forall i | 0 <= i < k2 - 1 :: calls[..k2 - 1][..i] == calls[..i] && calls[..k2 - 1][i] == calls[i];
  }

  /** The second walk does not fail after the step at which the first one did. */
  lemma SameStep(env: Env, up: bool, from: int, to: int, trace0: seq<Call>, fail0: int,
                 ret1: int, s1: int, k1: nat, state1: int, trace1: seq<Call>, fail1: int,
                 ret2: int, s2: int, k2: nat, state2: int, trace2: seq<Call>, fail2: int)
    requires InRange(env, up, from, to) && ret1 != 0 && ret2 != 0
    requires Walked(env, up, from, to, trace0, ret1, s1, k1, state1, trace1) && Injected(env, up, from, to, fail0, ret1, s1, k1, fail1)
    requires Walked(env, up, from, to, trace0, ret2, s2, k2, state2, trace2) && Injected(env, up, from, to, fail0, ret2, s2, k2, fail2)
    ensures if up then s2 <= s1 else s1 <= s2
    ensures s1 == s2 ==> (k1 == 0 <==> k2 == 0)
  {
    if (if up then s1 < s2 else s2 < s1) && k1 > 0 {
      NotPast(env, up, from, Before(up, s2), trace0, s1, k1, ret1);
    }
  }

  /** The direct range loop and the AP thread agree: a walk has only one outcome. */
  lemma WalkDeterministic(env: Env, up: bool, from: int, to: int, trace0: seq<Call>, fail0: int,
                          ret1: int, s1: int, k1: nat, state1: int, trace1: seq<Call>, fail1: int,
                          ret2: int, s2: int, k2: nat, state2: int, trace2: seq<Call>, fail2: int)
    requires InRange(env, up, from, to)
    requires Walked(env, up, from, to, trace0, ret1, s1, k1, state1, trace1) && Injected(env, up, from, to, fail0, ret1, s1, k1, fail1)
    requires Walked(env, up, from, to, trace0, ret2, s2, k2, state2, trace2) && Injected(env, up, from, to, fail0, ret2, s2, k2, fail2)
    ensures ret1 == ret2 && state1 == state2 && trace1 == trace2 && fail1 == fail2
  {
    if ret1 == 0 {
      NoFailure(env, up, from, to, trace0, fail0, ret2, s2, k2, state2, trace2, fail2);
    } else if ret2 == 0 {
      NoFailure(env, up, from, to, trace0, fail0, ret1, s1, k1, state1, trace1, fail1);
    } else {
      SameStep(env, up, from, to, trace0, fail0, ret1, s1, k1, state1, trace1, fail1, ret2, s2, k2, state2, trace2, fail2);
      SameStep(env, up, from, to, trace0, fail0, ret2, s2, k2, state2, trace2, fail2, ret1, s1, k1, state1, trace1, fail1);
      if k1 > 0 && k2 > 0 {
        SameFailure(env, trace0 + Forward(env, up, from, Before(up, s1)), CallsOf(env, up, s1), k1, ret1, k2, ret2);
        SameFailure(env, trace0 + Forward(env, up, from, Before(up, s1)), CallsOf(env, up, s1), k2, ret2, k1, ret1);
      }
    }
  }

  /** The state and the calls of a failed walk tell which callback failed. */
  lemma SameCallback(env: Env, up: bool, from: int, trace0: seq<Call>, s1: int, k1: nat, s2: int, k2: nat)
    requires Known(env, s1) && InRange(env, up, from, Before(up, s1)) && k1 <= |CallsOf(env, up, s1)|
    requires Known(env, s2) && InRange(env, up, from, Before(up, s2)) && k2 <= |CallsOf(env, up, s2)|
    requires After(up, s1) == After(up, s2)
    requires trace0 + FailedCalls(env, up, from, s1, k1) == trace0 + FailedCalls(env, up, from, s2, k2)
    ensures s1 == s2 && k1 == k2
  {
    assert |FailedCalls(env, up, from, s1, k1)| == |FailedCalls(env, up, from, s2, k2)|;
  }

  lemma SomethingUndone(env: Env, up: bool, s: int, k: nat)
    requires Known(env, s) && env.steps[s].multi && 1 < k <= |CallsOf(env, up, s)| && !Empty(env, !up, s)
    ensures UndoneInstances(env, up, s, k) != []
  {
  }

  /** The loop that hides a failure has run undo callbacks that the walk has not. */
  lemma HidingDiffers(env: Env, up: bool, from: int, to: int, trace0: seq<Call>, fail0: int,
                      ret: int, s: int, k: nat, state: int, trace: seq<Call>, fail: int)
    requires InRange(env, up, from, to) && Hiding(env, up, from, to, trace0, fail0)
    requires Walked(env, up, from, to, trace0, ret, s, k, state, trace) && Injected(env, up, from, to, fail0, ret, s, k, fail)
    ensures Direct(env, up, from, to, trace0, fail0).trace != trace
  {
    hide Direct, Forward, AllZero, FirstFailure, CallsOf, UndoneInstances, Passes;
    var s1: int, k1: nat, err1: int :| Hides(env, up, from, to, trace0, fail0, s1, k1, err1);
    var failed := trace0 + FailedCalls(env, up, from, s1, k1);
    WalkDeterministic(env, up, from, to, trace0, fail0, ret, s, k, state, trace, fail, err1, s1, k1, After(up, s1), failed, fail0);
    ForwardNone(env, up, from);
    NoSteps(env, up, from, trace0, fail0);
    assert trace0 + Forward(env, up, from, from) == trace0;
    var s2, k2, err2 := Classify(env, up, from, from, to, trace0, fail0);
    var d := Direct(env, up, from, to, trace0, fail0);
    if err2 == 0 {
      WalkDeterministic(env, up, from, to, trace0, fail0, d.ret, s2, k2, d.state, d.trace, d.fail, err1, s1, k1, After(up, s1), failed, fail0);
      SameCallback(env, up, from, trace0, s1, k1, s2, k2);
      assert false;
    } else {
      var failed2 := trace0 + FailedCalls(env, up, from, s2, k2);
      WalkDeterministic(env, up, from, to, trace0, fail0, ret, s, k, state, trace, fail, err2, s2, k2, After(up, s2), failed2, fail0);
      SomethingUndone(env, up, s2, k2);
    }
  }

  lemma NothingToWalk(env: Env, up: bool, at: int, trace: seq<Call>, fail: int)
    requires InRange(env, up, at, at)
    ensures forall s: int, k: nat :: Walked(env, up, at, at, trace, 0, s, k, at, trace) && Injected(env, up, at, at, fail, 0, s, k, fail)
  {
    assert trace == trace + Forward(env, up, at, at);
  }

  /** The loop does what the walk does exactly if no step hides a failure. */
  lemma SameUnlessHiding(env: Env, up: bool, from: int, to: int, trace0: seq<Call>, fail0: int,
                         ret: int, s: int, k: nat, state: int, trace: seq<Call>, fail: int)
    requires InRange(env, up, from, to)
    requires Walked(env, up, from, to, trace0, ret, s, k, state, trace) && Injected(env, up, from, to, fail0, ret, s, k, fail)
    ensures Ran(ret, state, trace, fail) == Direct(env, up, from, to, trace0, fail0) <==> !Hiding(env, up, from, to, trace0, fail0)
    ensures trace == Direct(env, up, from, to, trace0, fail0).trace <==> !Hiding(env, up, from, to, trace0, fail0)
  {
    hide Direct, Forward, AllZero, FirstFailure, CallsOf, Passes, Hiding, Walked, Injected;
    if Hiding(env, up, from, to, trace0, fail0) {
      HidingDiffers(env, up, from, to, trace0, fail0, ret, s, k, state, trace, fail);
    } else {
      var d := Direct(env, up, from, to, trace0, fail0);
      var s1, k1 := DirectPlain(env, up, from, to, trace0, fail0);
      WalkDeterministic(env, up, from, to, trace0, fail0, ret, s, k, state, trace, fail, d.ret, s1, k1, d.state, d.trace, d.fail);
    }
  }
}
