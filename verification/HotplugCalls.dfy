/** Which callbacks the walks consist of, told from the fields of the table of steps alone. */
module HotplugCalls {
  import opened Wrappers
  import opened HotplugWalks
  import opened HotplugKicks

  /** A callback of a walk in this direction between two states: the step has one, and the node is one of its instances. */
  predicate Belongs(steps: seq<Step>, up: bool, from: int, to: int, c: Call) {
    && c.bringup == up && 0 <= c.step < |steps|
    && (if up then from < c.step <= to else to < c.step <= from)
    && (if up then steps[c.step].startup else steps[c.step].teardown)
    && if steps[c.step].multi then c.node.Some? && c.node.value in steps[c.step].instances else c.node == None
  }

  /** Steps in the direction of the walk, and the instances of one step as they are listed. */
  ghost predicate Precedes(steps: seq<Step>, up: bool, a: Call, b: Call) {
    if a.step != b.step then if up then a.step < b.step else b.step < a.step
    else && 0 <= a.step < |steps|
         && var nodes := steps[a.step].instances;
            exists i, j | 0 <= i < j < |nodes| :: a.node == Some(nodes[i]) && b.node == Some(nodes[j])
  }

  /** No step above lo up to hi has a callback in this direction. */
  predicate Uncalled(steps: seq<Step>, up: bool, lo: int, hi: int) {
    forall f | lo < f <= hi && 0 <= f < |steps| :: if up then !steps[f].startup else !steps[f].teardown
  }

  lemma NoneCalled(env: Env, up: bool, from: int, to: int)
    requires Skipped(env, up, from, to)
    ensures if up then Uncalled(env.steps, true, from, to) else Uncalled(env.steps, false, to, from)
  {
    forall f | (if up then from < f <= to else to < f <= from)
      ensures if up then !env.steps[f].startup else !env.steps[f].teardown
    {
      assert !Passes(env, up, from, to, f);
    }
  }

  /** All the callbacks of a walk, in order. */
  ghost predicate Consists(steps: seq<Step>, up: bool, from: int, to: int, calls: seq<Call>) {
    && (forall c :: c in calls <==> Belongs(steps, up, from, to, c))
    && (forall i, j | 0 <= i < j < |calls| :: Precedes(steps, up, calls[i], calls[j]))
  }

  /** The callbacks of one step. */
  lemma StepMeans(env: Env, up: bool, s: int)
    requires Known(env, s)
    ensures Consists(env.steps, up, if up then s - 1 else s, if up then s else s - 1, CallsOf(env, up, s))
  {
    var step, calls := env.steps[s], CallsOf(env, up, s);
    var from, to := if up then s - 1 else s, if up then s else s - 1;
    if (if up then step.startup else step.teardown) && step.multi {
      forall c | Belongs(env.steps, up, from, to, c) ensures c in calls {
        var i :| 0 <= i < |step.instances| && step.instances[i] == c.node.value;
        assert calls[i] == c;
      }
    } else if (if up then step.startup else step.teardown) {
      assert calls[0] == Call(s, up, None);
    }
  }

  /** A walk is made of its two parts. */
  lemma Joined(steps: seq<Step>, up: bool, from: int, mid: int, to: int, a: seq<Call>, b: seq<Call>)
    requires if up then from <= mid <= to else to <= mid <= from
    requires Consists(steps, up, from, mid, a) && Consists(steps, up, mid, to, b)
    ensures Consists(steps, up, from, to, a + b)
  {
    var calls := a + b;
    forall c ensures c in calls <==> Belongs(steps, up, from, to, c) {
      assert c in calls <==> c in a || c in b;
    }
    forall i, j | 0 <= i < j < |calls| ensures Precedes(steps, up, calls[i], calls[j]) {
      if i < |a| && j >= |a| {
        assert calls[i] in a && calls[j] in b;
      } else if i >= |a| {
        assert calls[i] == b[i - |a|] && calls[j] == b[j - |a|];
      }
    }
  }

  lemma {:induction false} ForwardMeans(env: Env, up: bool, from: int, to: int)
    requires InRange(env, up, from, to)
    ensures Consists(env.steps, up, from, to, Forward(env, up, from, to))
    decreases if up then to - from else from - to
  {
    hide Forward, CallsOf;
    if from == to {
      ForwardNone(env, up, from);
    } else {
      var next := if up then from + 1 else from - 1;
      var s := if up then next else from;
      ForwardOne(env, up, from, to);
      ForwardMeans(env, up, next, to);
      StepMeans(env, up, s);
      Joined(env.steps, up, from, next, to, CallsOf(env, up, s), Forward(env, up, next, to));
    }
  }

  /** Where instances are distinct, this leaves no choice: no callback comes twice, and the order is fixed. */
  lemma EachOnce(env: Env, up: bool, from: int, to: int, calls: seq<Call>, i: nat, j: nat)
    requires WellFormed(env) && Consists(env.steps, up, from, to, calls) && i < j < |calls|
    ensures calls[i] != calls[j] && !Precedes(env.steps, up, calls[j], calls[i])
  {
    assert Precedes(env.steps, up, calls[i], calls[j]);
  }

  lemma NextSame(env: Env, up: bool, from: int, to: int, a: seq<Call>, b: seq<Call>, k: nat)
    requires WellFormed(env) && Consists(env.steps, up, from, to, a) && Consists(env.steps, up, from, to, b)
    requires k < |a| && k <= |b| && a[..k] == b[..k]
    ensures k < |b| && b[k] == a[k]
  {
    hide Belongs, Precedes, WellFormed;
    assert a[k] in b;
    var i :| 0 <= i < |b| && b[i] == a[k];
    if i < k {
      assert a[i] == a[..k][i] == b[..k][i] == b[i];
      EachOnce(env, up, from, to, a, i, k);
    } else if i > k {
      assert b[k] in a;
      var j :| 0 <= j < |a| && a[j] == b[k];
      if j < k {
        assert b[j] == b[..k][j] == a[..k][j] == a[j];
        EachOnce(env, up, from, to, b, j, k);
      } else if j > k {
        EachOnce(env, up, from, to, a, k, j);
      } else {
        EachOnce(env, up, from, to, b, k, i);
      }
    }
  }

  /** Position by position, b starts with a. */
  lemma {:induction false} SameOrder(env: Env, up: bool, from: int, to: int, a: seq<Call>, b: seq<Call>, k: nat)
    requires WellFormed(env) && Consists(env.steps, up, from, to, a) && Consists(env.steps, up, from, to, b)
    requires k <= |a| && k <= |b| && a[..k] == b[..k]
    ensures a <= b
    decreases |a| - k
  {
    hide Belongs, Precedes, WellFormed;
    if k < |a| {
      NextSame(env, up, from, to, a, b, k);
      assert a[..k + 1] == a[..k] + [a[k]] && b[..k + 1] == b[..k] + [b[k]];
      SameOrder(env, up, from, to, a, b, k + 1);
    } else {
      assert a[..k] == a;
    }
  }

  lemma {:induction false} OnlyOne(env: Env, up: bool, from: int, to: int, a: seq<Call>, b: seq<Call>)
    requires WellFormed(env) && Consists(env.steps, up, from, to, a) && Consists(env.steps, up, from, to, b)
    ensures a == b
  {
    hide Belongs, Precedes;
    assert forall c :: c in a <==> c in b;
    SameOrder(env, up, from, to, a, b, 0);
    SameOrder(env, up, from, to, b, a, 0);
  }

  /** The instances that cpuhp_invoke_callback undoes itself after instance k - 1 of a step failed. */
  lemma UndoneMeans(env: Env, up: bool, s: int, k: nat)
    requires Known(env, s) && 0 < k <= |env.steps[s].instances|
    ensures var step, undone := env.steps[s], UndoneInstances(env, up, s, k);
            if (if up then step.teardown else step.startup)
            then |undone| == k - 1 && forall i | 0 <= i < k - 1 :: undone[i] == Call(s, !up, Some(step.instances[i]))
            else undone == []
  {
  }

  /** What the second kick has to undo after step s failed on its k-th callback: the instances before that one, as they are
      listed, and then the opposite callbacks of the steps passed. */
  lemma UndoMeans(env: Env, up: bool, from: int, s: int, k: nat)
    requires Known(env, s) && InRange(env, up, from, Before(up, s))
    ensures var step, calls := env.steps[s], UndoCalls(env, up, from, s, k);
            var own: nat := if step.multi && 0 < k <= |step.instances| then k - 1 else 0;
            && own <= |calls|
            && (forall i | 0 <= i < own :: calls[i] == Call(s, !up, Some(step.instances[i])))
            && Consists(env.steps, !up, if up then s - 1 else s, from, calls[own..])
  {
    hide Consists, Forward;
    ForwardMeans(env, !up, Before(up, s), from);
    var calls, partial := UndoCalls(env, up, from, s, k), UndoPartial(env, up, s, k);
    assert calls[|partial|..] == Forward(env, !up, Before(up, s), from);
  }
}
