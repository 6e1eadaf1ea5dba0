/**
 The CPU hotplug state machine of kernel/cpu.c: numbered steps with nullable startup and teardown
 callbacks, walked up or down, and walked back when a callback fails.

 `Forward` lists the callbacks that passing a range of steps invokes. Passing it in the other
 direction undoes it, so rollback is exact when what was invoked after a failure is `Forward`
 of the opposite direction over the steps that had been passed.
 */
module HotplugWalks {
  import opened Wrappers

  type Node = nat

  /** A step; its instances are distinct list nodes and are used when it is multi-instance. */
  datatype Step = Step(startup: bool, teardown: bool, multi: bool, instances: seq<Node>)

  datatype Call = Call(step: int, bringup: bool, node: Option<Node>)

  /** The steps, and what a call returns after a history of earlier ones. */
  datatype Env = Env(steps: seq<Step>, outcome: (seq<Call>, Call) -> int)

  const EAGAIN: int := 11
  const CPUHP_INVALID: int := -1

  predicate Known(env: Env, s: int) {
    0 <= s < |env.steps|
  }

  predicate Distinct(nodes: seq<Node>) {
    forall i, j | 0 <= i < j < |nodes| :: nodes[i] != nodes[j]
  }

  predicate WellFormed(env: Env) {
    forall s | 0 <= s < |env.steps| :: Distinct(env.steps[s].instances)
  }

  /** cpuhp_step_empty */
  predicate Empty(env: Env, bringup: bool, s: int)
    requires Known(env, s)
  {
    if bringup then !env.steps[s].startup else !env.steps[s].teardown
  }

  function NodeCalls(s: int, bringup: bool, nodes: seq<Node>): (calls: seq<Call>)
    ensures |calls| == |nodes|
  {
    seq(|nodes|, i requires 0 <= i < |nodes| => Call(s, bringup, Some(nodes[i])))
  }

  /** The callbacks of one step: one per instance if it is multi-instance. */
  function CallsOf(env: Env, bringup: bool, s: int): seq<Call>
    requires Known(env, s)
  {
    if Empty(env, bringup, s) then []
    else if env.steps[s].multi then NodeCalls(s, bringup, env.steps[s].instances)
    else [Call(s, bringup, None)]
  }

  // Going up, step s is run from state s - 1; going down, from state s.
  function Before(bringup: bool, s: int): int {
    if bringup then s - 1 else s
  }

  function After(bringup: bool, s: int): int {
    if bringup then s else s - 1
  }

  /** The state does not lie beyond the target, and all steps between them exist. */
  predicate InRange(env: Env, bringup: bool, from: int, to: int) {
    if bringup then 0 <= from <= to < |env.steps| else 0 <= to <= from < |env.steps|
  }

  /** Everything that passing from one state to another invokes, in order. */
  function Forward(env: Env, bringup: bool, from: int, to: int): seq<Call>
    requires InRange(env, bringup, from, to)
    decreases if bringup then to - from else from - to
  {
    if from == to then []
    else if bringup then CallsOf(env, true, from + 1) + Forward(env, true, from + 1, to)
    else CallsOf(env, false, from) + Forward(env, false, from - 1, to)
  }

  lemma ForwardNone(env: Env, bringup: bool, at: int)
    requires InRange(env, bringup, at, at)
    ensures Forward(env, bringup, at, at) == []
  {
  }

  /** The first step of a range. */
  lemma ForwardOne(env: Env, bringup: bool, from: int, to: int)
    requires InRange(env, bringup, from, to) && from != to
    ensures var next := if bringup then from + 1 else from - 1;
            Forward(env, bringup, from, to)
            == CallsOf(env, bringup, if bringup then next else from) + Forward(env, bringup, next, to)
  {
  }

  lemma {:induction false} ForwardSplit(env: Env, bringup: bool, from: int, mid: int, to: int)
    requires InRange(env, bringup, from, mid) && InRange(env, bringup, mid, to)
    ensures InRange(env, bringup, from, to)
    ensures Forward(env, bringup, from, to) == Forward(env, bringup, from, mid) + Forward(env, bringup, mid, to)
    decreases if bringup then mid - from else from - mid
  {
    hide Forward, CallsOf;
    if from == mid {
      ForwardNone(env, bringup, from);
    } else {
      var next := if bringup then from + 1 else from - 1;
      ForwardSplit(env, bringup, next, mid, to);
      ForwardOne(env, bringup, from, mid);
      ForwardOne(env, bringup, from, to);
    }
  }

  /** The calls appended to a history all returned 0. */
  predicate AllZero(env: Env, history: seq<Call>, calls: seq<Call>) {
    forall i | 0 <= i < |calls| :: env.outcome(history + calls[..i], calls[i]) == 0
  }

  lemma AllZeroConcat(env: Env, history: seq<Call>, a: seq<Call>, b: seq<Call>)
    requires AllZero(env, history, a) && AllZero(env, history + a, b)
    ensures AllZero(env, history, a + b)
  {
    var calls := a + b;
    forall i | 0 <= i < |calls|
      ensures env.outcome(history + calls[..i], calls[i]) == 0
    {
      if i < |a| {
        assert calls[..i] == a[..i];
      } else {
        assert history + calls[..i] == (history + a) + b[..i - |a|];
      }
    }
  }

  /** A walk that failed: it passed every step up to s, and invoked the first k callbacks of s. When k is 0 the
      failure was injected; otherwise the last of them returned the error. */
  predicate FailedAt(env: Env, bringup: bool, from: int, to: int, s: int, k: nat) {
    && Known(env, s) && !Empty(env, bringup, s) && k <= |CallsOf(env, bringup, s)|
    && InRange(env, bringup, from, Before(bringup, s)) && InRange(env, bringup, After(bringup, s), to)
  }

  function FailedCalls(env: Env, bringup: bool, from: int, s: int, k: nat): seq<Call>
    requires Known(env, s) && k <= |CallsOf(env, bringup, s)| && InRange(env, bringup, from, Before(bringup, s))
  {
    Forward(env, bringup, from, Before(bringup, s)) + CallsOf(env, bringup, s)[..k]
  }

  /** Where a walk over the instances stops: at *lastp, if there is one. */
  function StopAt(nodes: seq<Node>, last: Option<Node>): (n: nat)
    ensures n <= |nodes|
  {
    if nodes == [] || (last.Some? && nodes[0] == last.value) then 0 else 1 + StopAt(nodes[1..], last)
  }

  lemma {:induction false} StopAtIs(nodes: seq<Node>, last: Option<Node>, i: nat)
    requires i <= |nodes| && (forall j | 0 <= j < i :: last != Some(nodes[j]))
    requires i < |nodes| ==> last == Some(nodes[i])
    ensures StopAt(nodes, last) == i
    decreases |nodes|
  {
    if i > 0 {
      StopAtIs(nodes[1..], last, i - 1);
    }
  }

  /** The callbacks that one invocation goes through, as long as none fails. */
  function Attempts(env: Env, up: bool, s: int, last: Option<Node>): seq<Call>
    requires Known(env, s) && !Empty(env, up, s)
  {
    if env.steps[s].multi then NodeCalls(s, up, env.steps[s].instances[..StopAt(env.steps[s].instances, last)])
    else [Call(s, up, None)]
  }

  /** The k-th of the calls is the first that failed, with err. */
  predicate FirstFailure(env: Env, history: seq<Call>, calls: seq<Call>, k: nat, err: int) {
    && 0 < k <= |calls| && err != 0
    && AllZero(env, history, calls[..k - 1])
    && env.outcome(history + calls[..k - 1], calls[k - 1]) == err
  }

  /** What cpuhp_invoke_callback without lastp does after the failure of instance k - 1: it undoes the instances
      before, and returns what the last of the undo callbacks returned. */
  function UndoneInstances(env: Env, up: bool, s: int, k: nat): seq<Call>
    requires Known(env, s) && 0 < k <= |env.steps[s].instances|
  {
    if Empty(env, !up, s) then [] else NodeCalls(s, !up, env.steps[s].instances[..k - 1])
  }

  function LastResult(env: Env, history: seq<Call>, calls: seq<Call>, err: int): int {
    if calls == [] then err else env.outcome(history + calls[..|calls| - 1], calls[|calls| - 1])
  }

  lemma LastResultIs(env: Env, history: seq<Call>, calls: seq<Call>, c: Call, err: int)
    ensures LastResult(env, history, calls + [c], err) == env.outcome(history + calls, c)
  {
    assert (calls + [c])[..|calls|] == calls;
  }

  /** The outcome of walking the instances up to *lastp. */
  predicate RanToLast(env: Env, up: bool, s: int, last0: Option<Node>, trace0: seq<Call>,
                      ret: int, k: nat, last: Option<Node>, trace: seq<Call>)
    requires Known(env, s) && !Empty(env, up, s)
  {
    var calls := Attempts(env, up, s, last0);
    && k <= |calls| && trace == trace0 + calls[..k]
    && if ret == 0 then k == |calls| && AllZero(env, trace0, calls) && last == None
       else FirstFailure(env, trace0, calls, k, ret) && last == calls[k - 1].node
  }

  /** One callback run by the AP thread, which passes &st->last. */
  predicate RanOnThread(env: Env, up: bool, s: int, last0: Option<Node>, trace0: seq<Call>, fail0: int,
                        ret: int, k: nat, last: Option<Node>, trace: seq<Call>, fail: int)
    requires Known(env, s) && !Empty(env, up, s)
  {
    if fail0 == s then ret == -EAGAIN && k == 0 && fail == CPUHP_INVALID && trace == trace0 && last == last0
    else
      && fail == fail0
      && if env.steps[s].multi then RanToLast(env, up, s, last0, trace0, ret, k, last, trace)
         else var c := Call(s, up, None);
              k == 1 && ret == env.outcome(trace0, c) && trace == trace0 + [c] && last == last0
  }

  /** The outcome of walking all instances, and back from the first failure err. */
  predicate RanAll(env: Env, up: bool, s: int, trace0: seq<Call>, ret: int, k: nat, err: int, trace: seq<Call>)
    requires Known(env, s) && !Empty(env, up, s) && env.steps[s].multi
  {
    var calls := CallsOf(env, up, s);
    && k <= |calls|
    && if err == 0
       then k == |calls| && ret == 0 && AllZero(env, trace0, calls) && trace == trace0 + calls
       else && FirstFailure(env, trace0, calls, k, err)
            && trace == trace0 + calls[..k] + UndoneInstances(env, up, s, k)
            && ret == LastResult(env, trace0 + calls[..k], UndoneInstances(env, up, s, k), err)
  }

  /** A walk from one state towards another: all of it, or up to the failure of step s. */
  predicate Walked(env: Env, up: bool, from: int, to: int, trace0: seq<Call>,
                   ret: int, s: int, k: nat, state: int, trace: seq<Call>)
    requires InRange(env, up, from, to)
  {
    if ret == 0
    then state == to && trace == trace0 + Forward(env, up, from, to) && AllZero(env, trace0, Forward(env, up, from, to))
    else && FailedAt(env, up, from, to, s, k) && state == After(up, s)
         && trace == trace0 + FailedCalls(env, up, from, s, k)
         && AllZero(env, trace0, Forward(env, up, from, Before(up, s)))
         && (k > 0 ==> FirstFailure(env, trace0 + Forward(env, up, from, Before(up, s)), CallsOf(env, up, s), k, ret))
  }

  /** What an error that is returned stands for: the first callback that failed, or an injected failure. */
  predicate Blames(env: Env, up: bool, from: int, to: int, trace0: seq<Call>, fail0: int, ret: int, s: int, k: nat) {
    && FailedAt(env, up, from, to, s, k) && AllZero(env, trace0, Forward(env, up, from, Before(up, s)))
    && if k == 0 then s == fail0 && ret == -EAGAIN
       else FirstFailure(env, trace0 + Forward(env, up, from, Before(up, s)), CallsOf(env, up, s), k, ret)
  }

  /** The walk runs a callback of step f, so a failure injected at f shows. */
  predicate Passes(env: Env, up: bool, from: int, to: int, f: int)
    requires InRange(env, up, from, to)
  {
    Known(env, f) && !Empty(env, up, f) && if up then from < f <= to else to < f <= from
  }

  lemma PassesSplit(env: Env, up: bool, from: int, mid: int, to: int, f: int)
    requires InRange(env, up, from, mid) && InRange(env, up, mid, to)
    ensures Passes(env, up, from, to, f) <==> Passes(env, up, from, mid, f) || Passes(env, up, mid, to, f)
  {
  }

  /** Only empty steps lie between. */
  ghost predicate Skipped(env: Env, up: bool, from: int, to: int) {
    InRange(env, up, from, to) && forall f: int :: !Passes(env, up, from, to, f)
  }

  lemma {:induction false} SkippedForward(env: Env, up: bool, from: int, to: int)
    requires Skipped(env, up, from, to)
    ensures Forward(env, up, from, to) == []
    decreases if up then to - from else from - to
  {
    if from != to {
      var next := if up then from + 1 else from - 1;
      var s := if up then from + 1 else from;
      assert !Passes(env, up, from, to, s);
      forall f: int
        ensures !Passes(env, up, next, to, f)
      {
        assert !Passes(env, up, from, to, f);
      }
      SkippedForward(env, up, next, to);
    }
  }

  /** A walk ends: nothing but empty steps is left. */
  lemma WalkEnds(env: Env, up: bool, from: int, at: int, to: int)
    requires InRange(env, up, from, at) && Skipped(env, up, at, to)
    ensures InRange(env, up, from, to) && Forward(env, up, from, to) == Forward(env, up, from, at)
    ensures forall f: int :: Passes(env, up, from, to, f) <==> Passes(env, up, from, at, f)
  {
    ForwardSplit(env, up, from, at, to);
    SkippedForward(env, up, at, to);
    forall f: int
      ensures Passes(env, up, from, to, f) <==> Passes(env, up, from, at, f)
    {
      PassesSplit(env, up, from, at, to, f);
      assert !Passes(env, up, at, to, f);
    }
  }

  /** When and where an injected failure shows: k is 0 exactly then, and it is used up. */
  predicate Injected(env: Env, up: bool, from: int, to: int, fail0: int, ret: int, s: int, k: nat, fail: int)
    requires InRange(env, up, from, to)
  {
    if ret != 0 && k == 0 then s == fail0 && ret == -EAGAIN && fail == CPUHP_INVALID
    else && fail == fail0
         && (ret == 0 ==> !Passes(env, up, from, to, fail0))
         && (ret != 0 && FailedAt(env, up, from, to, s, k) ==> !Passes(env, up, from, After(up, s), fail0))
  }

  /** A walk reaches step s, and passing s adds its callbacks. */
  lemma WalkOneMore(env: Env, up: bool, from: int, at: int, s: int)
    requires InRange(env, up, from, at) && Skipped(env, up, at, Before(up, s)) && Known(env, s)
    requires InRange(env, up, Before(up, s), After(up, s)) && !Empty(env, up, s)
    ensures InRange(env, up, from, Before(up, s)) && InRange(env, up, from, After(up, s))
    ensures Forward(env, up, from, Before(up, s)) == Forward(env, up, from, at)
    ensures Forward(env, up, from, After(up, s)) == Forward(env, up, from, at) + CallsOf(env, up, s)
    ensures forall f: int :: Passes(env, up, from, After(up, s), f) <==> Passes(env, up, from, at, f) || f == s
  {
    WalkEnds(env, up, from, at, Before(up, s));
    ForwardSplit(env, up, from, Before(up, s), After(up, s));
    assert Forward(env, up, Before(up, s), After(up, s)) == CallsOf(env, up, s);
    forall f: int
      ensures Passes(env, up, from, After(up, s), f) <==> Passes(env, up, from, at, f) || f == s
    {
      PassesSplit(env, up, from, Before(up, s), After(up, s), f);
    }
  }

  lemma SingleFailure(env: Env, up: bool, s: int, history: seq<Call>, err: int, k: nat)
    requires Known(env, s) && !Empty(env, up, s) && !env.steps[s].multi && k <= 1
    requires k == 1 ==> err != 0 && err == env.outcome(history, Call(s, up, None))
    ensures |CallsOf(env, up, s)| == 1 && (k == 1 ==> CallsOf(env, up, s)[..k] == CallsOf(env, up, s))
    ensures forall h: seq<Call> :: h + CallsOf(env, up, s)[..0] == h
    ensures k == 1 ==> FirstFailure(env, history, CallsOf(env, up, s), k, err)
  {
    assert history + CallsOf(env, up, s)[..0] == history;
  }

  lemma AllZeroOne(env: Env, history: seq<Call>, c: Call)
    ensures AllZero(env, history, [c]) <==> env.outcome(history, c) == 0
  {
    assert history + [c][..0] == history;
  }

  lemma AllZeroSnoc(env: Env, history: seq<Call>, calls: seq<Call>, c: Call)
    requires AllZero(env, history, calls) && env.outcome(history + calls, c) == 0
    ensures AllZero(env, history, calls + [c])
  {
    forall i | 0 <= i < |calls| + 1
      ensures env.outcome(history + (calls + [c])[..i], (calls + [c])[i]) == 0
    {
      assert (calls + [c])[..i] == calls[..i];
      assert calls[..|calls|] == calls;
    }
  }

  lemma {:induction false} StopAtAfter(nodes: seq<Node>, last: Option<Node>, i: nat)
    requires i < |nodes| && (forall j | 0 <= j <= i :: last != Some(nodes[j]))
    ensures StopAt(nodes, last) > i
    decreases |nodes|
  {
    if i > 0 {
      StopAtAfter(nodes[1..], last, i - 1);
    }
  }

  /** Whatever precedes step s in a walk that passes it. */
  lemma ForwardContains(env: Env, up: bool, from: int, s: int, to: int)
    requires Known(env, s) && InRange(env, up, from, Before(up, s)) && InRange(env, up, After(up, s), to)
    requires InRange(env, up, Before(up, s), After(up, s))
    ensures InRange(env, up, from, to)
    ensures Forward(env, up, from, to)
         == Forward(env, up, from, Before(up, s)) + CallsOf(env, up, s) + Forward(env, up, After(up, s), to)
  {
    hide Forward, CallsOf;
    ForwardSplit(env, up, from, Before(up, s), to);
    ForwardOne(env, up, Before(up, s), to);
  }

  /** A walk that failed at s did not come past s. */
  lemma NotPast(env: Env, up: bool, from: int, to: int, trace0: seq<Call>, s: int, k: nat, err: int)
    requires FailedAt(env, up, from, to, s, k) && k > 0 && InRange(env, up, from, to)
    requires FirstFailure(env, trace0 + Forward(env, up, from, Before(up, s)), CallsOf(env, up, s), k, err)
    ensures !AllZero(env, trace0, Forward(env, up, from, to))
  {
    hide Forward, CallsOf;
    var pre, calls := Forward(env, up, from, Before(up, s)), CallsOf(env, up, s);
    ForwardContains(env, up, from, s, to);
    var all := Forward(env, up, from, to);
    var i := |pre| + k - 1;
    assert all[i] == calls[k - 1];
    assert trace0 + all[..i] == (trace0 + pre) + calls[..k - 1];
  }
}
