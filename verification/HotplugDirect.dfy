/**
 The direct range loop of kernel/cpu.c over any table of steps. Where every callback succeeds it is the plain walk;
 where one fails it stops there, except that a multi-instance step undoes its own instances first and then answers
 with what the last undo callback returned.
 */
module HotplugDirect {
  import opened Wrappers
  import opened HotplugWalks

  datatype Invoked = Invoked(ret: int, trace: seq<Call>, fail: int)
  datatype Ran = Ran(ret: int, state: int, trace: seq<Call>, fail: int)

  /** How many of the calls succeed before the first that does not. */
  function FirstBad(env: Env, history: seq<Call>, calls: seq<Call>): (n: nat)
    ensures n <= |calls|
    decreases |calls|
  {
    if calls == [] || env.outcome(history, calls[0]) != 0 then 0
    else 1 + FirstBad(env, history + [calls[0]], calls[1..])
  }

  lemma {:induction false} FirstBadIs(env: Env, history: seq<Call>, calls: seq<Call>)
    ensures var n := FirstBad(env, history, calls);
            && AllZero(env, history, calls[..n])
            && (n < |calls| ==> FirstFailure(env, history, calls, n + 1, env.outcome(history + calls[..n], calls[n])))
    decreases |calls|
  {
    if calls != [] && env.outcome(history, calls[0]) == 0 {
      var c, rest := calls[0], calls[1..];
      FirstBadIs(env, history + [c], rest);
      var m := FirstBad(env, history + [c], rest);
      AllZeroOne(env, history, c);
      AllZeroConcat(env, history, [c], rest[..m]);
      assert [c] + rest[..m] == calls[..m + 1];
      assert history + calls[..m + 1] == history + [c] + rest[..m];
    } else {
      assert history + calls[..0] == history;
    }
  }

  lemma FirstBadUnique(env: Env, history: seq<Call>, calls: seq<Call>, k: nat, err: int)
    requires FirstFailure(env, history, calls, k, err)
    ensures FirstBad(env, history, calls) == k - 1
  {
    hide FirstBad;
    FirstBadIs(env, history, calls);
    var n := FirstBad(env, history, calls);
    assert forall i | 0 <= i < k - 1 :: calls[..k - 1][..i] == calls[..i] && calls[..k - 1][i] == calls[i];
    assert forall i | 0 <= i < n :: calls[..n][..i] == calls[..i] && calls[..n][i] == calls[i];
  }

  lemma NoneBad(env: Env, history: seq<Call>, calls: seq<Call>)
    requires AllZero(env, history, calls)
    ensures FirstBad(env, history, calls) == |calls|
  {
    FirstBadIs(env, history, calls);
  }

  /** All instances of a step, with lastp == NULL. */
  function Instances(env: Env, up: bool, s: int, trace: seq<Call>): (int, seq<Call>)
    requires Known(env, s) && !Empty(env, up, s) && env.steps[s].multi
  {
    var calls := CallsOf(env, up, s);
    var n := FirstBad(env, trace, calls);
    if n == |calls| then (0, trace + calls)
    else
      var tried, undone := trace + calls[..n + 1], UndoneInstances(env, up, s, n + 1);
      (LastResult(env, tried, undone, env.outcome(trace + calls[..n], calls[n])), tried + undone)
  }

  lemma RanAllIs(env: Env, up: bool, s: int, trace0: seq<Call>, ret: int, k: nat, err: int, trace: seq<Call>)
    requires Known(env, s) && !Empty(env, up, s) && env.steps[s].multi
    requires RanAll(env, up, s, trace0, ret, k, err, trace)
    ensures (ret, trace) == Instances(env, up, s, trace0)
  {
    hide FirstBad, AllZero;
    var calls := CallsOf(env, up, s);
    if err == 0 { NoneBad(env, trace0, calls); } else { FirstBadUnique(env, trace0, calls, k, err); }
  }

  /** One step of the loop. */
  function Once(env: Env, up: bool, s: int, trace: seq<Call>, fail: int): Invoked
    requires Known(env, s) && !Empty(env, up, s)
  {
    if fail == s then Invoked(-EAGAIN, trace, CPUHP_INVALID)
    else if env.steps[s].multi then
      var r := Instances(env, up, s, trace);
      Invoked(r.0, r.1, fail)
    else Invoked(env.outcome(trace, Call(s, up, None)), trace + [Call(s, up, None)], fail)
  }

  function Direct(env: Env, up: bool, from: int, to: int, trace: seq<Call>, fail: int): (r: Ran)
    requires InRange(env, up, from, to)
    ensures InRange(env, up, from, r.state) && InRange(env, up, r.state, to)
    ensures if r.ret == 0 then r.state == to else r.state != from
    decreases if up then to - from else from - to
  {
    if from == to then Ran(0, to, trace, fail)
    else
      var s := if up then from + 1 else from;
      var next := After(up, s);
      if Empty(env, up, s) then Direct(env, up, next, to, trace, fail)
      else
        var i := Once(env, up, s, trace, fail);
        if i.ret != 0 then Ran(i.ret, next, i.trace, i.fail) else Direct(env, up, next, to, i.trace, i.fail)
  }

  lemma {:induction false} DirectSkips(env: Env, up: bool, from: int, at: int, to: int, trace: seq<Call>, fail: int)
    requires Skipped(env, up, from, at) && InRange(env, up, at, to)
    ensures InRange(env, up, from, to) && Direct(env, up, from, to, trace, fail) == Direct(env, up, at, to, trace, fail)
    decreases if up then at - from else from - at
  {
    if from != at {
      var next := if up then from + 1 else from - 1;
      var s := if up then from + 1 else from;
      assert !Passes(env, up, from, at, s);
      forall f: int ensures !Passes(env, up, next, at, f) { assert !Passes(env, up, from, at, f); }
      DirectSkips(env, up, next, at, to, trace, fail);
    }
  }

  /** The next non-empty step of the loop. */
  lemma DirectStep(env: Env, up: bool, from: int, s: int, to: int, trace: seq<Call>, fail: int)
    requires Skipped(env, up, from, Before(up, s)) && Known(env, s) && !Empty(env, up, s)
    requires InRange(env, up, Before(up, s), After(up, s)) && InRange(env, up, After(up, s), to)
    ensures InRange(env, up, from, to)
    ensures var i := Once(env, up, s, trace, fail);
            Direct(env, up, from, to, trace, fail)
            == if i.ret != 0 then Ran(i.ret, After(up, s), i.trace, i.fail)
               else Direct(env, up, After(up, s), to, i.trace, i.fail)
  {
    hide Once;
    DirectSkips(env, up, from, Before(up, s), to, trace, fail);
  }

  /** The loop over a range is the loop over its first part and then, if that succeeds, over the rest. */
  lemma {:induction false} DirectSplit(env: Env, up: bool, from: int, at: int, to: int, trace: seq<Call>, fail: int)
    requires InRange(env, up, from, at) && InRange(env, up, at, to)
    ensures InRange(env, up, from, to)
    ensures var d := Direct(env, up, from, at, trace, fail);
            Direct(env, up, from, to, trace, fail) == if d.ret != 0 then d else Direct(env, up, at, to, d.trace, d.fail)
    decreases if up then at - from else from - at
  {
    hide Once;
    if from != at {
      var s := if up then from + 1 else from;
      if Empty(env, up, s) {
        DirectSplit(env, up, After(up, s), at, to, trace, fail);
      } else {
        var i := Once(env, up, s, trace, fail);
        if i.ret == 0 { DirectSplit(env, up, After(up, s), at, to, i.trace, i.fail); }
      }
    }
  }

  // What the loop comes to.

  /**
   The first callback of the walk to fail is instance k - 1 of step s, and there are instances before it that the step
   undoes: then the step's answer is not the error.
   */
  ghost predicate Hides(env: Env, up: bool, from: int, to: int, trace0: seq<Call>, fail0: int, s: int, k: nat, err: int)
    requires InRange(env, up, from, to)
  {
    && FailedAt(env, up, from, to, s, k) && env.steps[s].multi && k > 1 && !Empty(env, !up, s) && err != 0
    && Walked(env, up, from, to, trace0, err, s, k, After(up, s), trace0 + FailedCalls(env, up, from, s, k))
    && !Passes(env, up, from, After(up, s), fail0)
  }

  ghost predicate Hiding(env: Env, up: bool, from: int, to: int, trace0: seq<Call>, fail0: int)
    requires InRange(env, up, from, to)
  {
    exists s: int, k: nat, err: int :: Hides(env, up, from, to, trace0, fail0, s, k, err)
  }

  /** The loop did the plain walk. */
  ghost predicate Plain(env: Env, up: bool, from: int, to: int, trace0: seq<Call>, fail0: int, d: Ran, s: int, k: nat)
    requires InRange(env, up, from, to)
  {
    && Walked(env, up, from, to, trace0, d.ret, s, k, d.state, d.trace)
    && Injected(env, up, from, to, fail0, d.ret, s, k, d.fail)
    && (d.ret != 0 && env.steps[s].multi ==> k <= 1 || Empty(env, !up, s))
  }

  lemma OnceGrows(env: Env, up: bool, s: int, trace: seq<Call>, fail: int)
    requires Known(env, s) && !Empty(env, up, s)
    ensures trace <= Once(env, up, s, trace, fail).trace
  {
  }

  lemma {:induction false} DirectGrows(env: Env, up: bool, from: int, to: int, trace: seq<Call>, fail: int)
    requires InRange(env, up, from, to)
    ensures trace <= Direct(env, up, from, to, trace, fail).trace
    decreases if up then to - from else from - to
  {
    hide Once;
    if from != to {
      var s := if up then from + 1 else from;
      if Empty(env, up, s) {
        DirectGrows(env, up, After(up, s), to, trace, fail);
      } else {
        OnceGrows(env, up, s, trace, fail);
        var i := Once(env, up, s, trace, fail);
        if i.ret == 0 { DirectGrows(env, up, After(up, s), to, i.trace, i.fail); }
      }
    }
  }

  /** How one step of the loop ends: all its callbacks succeeded, it stopped at one of them, or it hid the failure. */
  datatype Ending = Passed | Stopped(k: nat) | Hidden(k: nat, err: int)

  ghost predicate EndsAs(env: Env, up: bool, s: int, trace: seq<Call>, fail: int, i: Invoked, e: Ending)
    requires Known(env, s) && !Empty(env, up, s)
  {
    var calls := CallsOf(env, up, s);
    match e
    case Passed => fail != s && AllZero(env, trace, calls) && i == Invoked(0, trace + calls, fail)
    case Stopped(k) =>
      && i.ret != 0 && k <= |calls| && i.trace == trace + calls[..k]
      && (env.steps[s].multi ==> k <= 1 || Empty(env, !up, s))
      && if k == 0 then fail == s && i.ret == -EAGAIN && i.fail == CPUHP_INVALID
         else fail != s && i.fail == fail && FirstFailure(env, trace, calls, k, i.ret)
    case Hidden(k, err) =>
      && fail != s && i.fail == fail && env.steps[s].multi && 1 < k <= |calls| && !Empty(env, !up, s) && err != 0
      && FirstFailure(env, trace, calls, k, err) && i.trace == trace + calls[..k] + UndoneInstances(env, up, s, k)
  }

  lemma OnceEnds(env: Env, up: bool, s: int, trace: seq<Call>, fail: int) returns (e: Ending)
    requires Known(env, s) && !Empty(env, up, s)
    ensures EndsAs(env, up, s, trace, fail, Once(env, up, s, trace, fail), e)
  {
    var calls := CallsOf(env, up, s);
    if fail == s {
      assert trace + calls[..0] == trace;
      e := Stopped(0);
    } else if !env.steps[s].multi {
      var ret := env.outcome(trace, calls[0]);
      AllZeroOne(env, trace, calls[0]);
      if ret == 0 {
        e := Passed;
      } else {
        SingleFailure(env, up, s, trace, ret, 1);
        e := Stopped(1);
      }
    } else {
      FirstBadIs(env, trace, calls);
      var n := FirstBad(env, trace, calls);
      if n == |calls| {
        assert calls[..n] == calls;
        e := Passed;
      } else if n == 0 || Empty(env, !up, s) {
        assert UndoneInstances(env, up, s, n + 1) == [];
        e := Stopped(n + 1);
      } else {
        e := Hidden(n + 1, env.outcome(trace + calls[..n], calls[n]));
      }
    }
  }

  /** A walk that has come to state `at` meets step s there and does not get past it. */
  lemma StopsHere(env: Env, up: bool, from: int, s: int, to: int, trace0: seq<Call>, fail0: int, ret: int, k: nat, fail: int)
    requires Known(env, s) && !Empty(env, up, s) && InRange(env, up, from, Before(up, s)) && InRange(env, up, After(up, s), to)
    requires InRange(env, up, from, to) && InRange(env, up, Before(up, s), After(up, s))
    requires AllZero(env, trace0, Forward(env, up, from, Before(up, s))) && !Passes(env, up, from, Before(up, s), fail0)
    requires ret != 0 && k <= |CallsOf(env, up, s)|
    requires if k == 0 then fail0 == s && ret == -EAGAIN && fail == CPUHP_INVALID
             else fail0 != s && fail == fail0
                  && FirstFailure(env, trace0 + Forward(env, up, from, Before(up, s)), CallsOf(env, up, s), k, ret)
    ensures Walked(env, up, from, to, trace0, ret, s, k, After(up, s), trace0 + FailedCalls(env, up, from, s, k))
    ensures Injected(env, up, from, to, fail0, ret, s, k, fail)
    ensures k > 0 ==> !Passes(env, up, from, After(up, s), fail0)
  {
    hide Forward, AllZero, FirstFailure, CallsOf;
    PassesSplit(env, up, from, Before(up, s), After(up, s), fail0);
  }

  lemma EmptySkip(env: Env, up: bool, at: int)
    requires InRange(env, up, at, at)
    ensures Skipped(env, up, at, at)
  {
  }

  lemma EmptyStep(env: Env, up: bool, from: int, at: int, s: int, trace0: seq<Call>, fail0: int)
    requires InRange(env, up, from, at) && at == Before(up, s) && Known(env, s) && InRange(env, up, at, After(up, s)) && Empty(env, up, s)
    requires AllZero(env, trace0, Forward(env, up, from, at)) && !Passes(env, up, from, at, fail0)
    ensures InRange(env, up, from, After(up, s)) && Forward(env, up, from, After(up, s)) == Forward(env, up, from, at)
    ensures !Passes(env, up, from, After(up, s), fail0)
  {
    WalkEnds(env, up, from, at, After(up, s));
  }

  /** Every run of the loop is the plain walk, or the walk up to a failure that step s hid. */
  lemma {:induction false} Classify(env: Env, up: bool, from: int, at: int, to: int, trace0: seq<Call>, fail0: int)
    returns (s: int, k: nat, err: int)
    requires InRange(env, up, from, at) && InRange(env, up, at, to)
    requires AllZero(env, trace0, Forward(env, up, from, at)) && !Passes(env, up, from, at, fail0)
    ensures InRange(env, up, from, to)
    ensures var d := Direct(env, up, at, to, trace0 + Forward(env, up, from, at), fail0);
            if err == 0 then Plain(env, up, from, to, trace0, fail0, d, s, k)
            else && Hides(env, up, from, to, trace0, fail0, s, k, err)
                 && trace0 + FailedCalls(env, up, from, s, k) + UndoneInstances(env, up, s, k) <= d.trace
    decreases if up then to - at else at - to
  {
    hide Forward, AllZero, FirstFailure, CallsOf, Once, UndoneInstances, Passes;
    var trace := trace0 + Forward(env, up, from, at);
    if at == to {
      return at, 0, 0;
    }
    s := if up then at + 1 else at;
    if Empty(env, up, s) {
      EmptyStep(env, up, from, at, s, trace0, fail0);
      s, k, err := Classify(env, up, from, After(up, s), to, trace0, fail0);
      return;
    }
    EmptySkip(env, up, at);
    WalkOneMore(env, up, from, at, s);
    var e := OnceEnds(env, up, s, trace, fail0);
    var i := Once(env, up, s, trace, fail0);
    match e
    case Passed =>
      AllZeroConcat(env, trace0, Forward(env, up, from, at), CallsOf(env, up, s));
      assert trace + CallsOf(env, up, s) == trace0 + Forward(env, up, from, After(up, s));
      s, k, err := Classify(env, up, from, After(up, s), to, trace0, fail0);
    case Stopped(j) =>
      StopsHere(env, up, from, s, to, trace0, fail0, i.ret, j, i.fail);
      assert trace + CallsOf(env, up, s)[..j] == trace0 + FailedCalls(env, up, from, s, j);
      k, err := j, 0;
    case Hidden(j, failure) =>
      StopsHere(env, up, from, s, to, trace0, fail0, failure, j, fail0);
      assert trace + CallsOf(env, up, s)[..j] == trace0 + FailedCalls(env, up, from, s, j);
      if i.ret == 0 { DirectGrows(env, up, After(up, s), to, i.trace, i.fail); }
      k, err := j, failure;
  }

  lemma NoSteps(env: Env, up: bool, at: int, trace: seq<Call>, fail: int)
    requires InRange(env, up, at, at)
    ensures AllZero(env, trace, Forward(env, up, at, at)) && !Passes(env, up, at, at, fail)
  {
  }

  /** Callbacks that succeed, with no failure injected among them, are run to the end, whatever kind of steps they belong to. */
  lemma DirectSucceeds(env: Env, up: bool, from: int, to: int, trace0: seq<Call>, fail0: int)
    requires InRange(env, up, from, to)
    requires AllZero(env, trace0, Forward(env, up, from, to)) && !Passes(env, up, from, to, fail0)
    ensures Direct(env, up, from, to, trace0, fail0) == Ran(0, to, trace0 + Forward(env, up, from, to), fail0)
  {
    hide Direct, Forward, AllZero, CallsOf, FirstFailure;
    ForwardNone(env, up, from);
    NoSteps(env, up, from, trace0, fail0);
    assert trace0 + Forward(env, up, from, from) == trace0;
    var s, k, err := Classify(env, up, from, from, to, trace0, fail0);
    var d := Direct(env, up, from, to, trace0, fail0);
    if err != 0 {
      NotPast(env, up, from, to, trace0, s, k, err);
    } else if d.ret != 0 && k > 0 {
      NotPast(env, up, from, to, trace0, s, k, d.ret);
    }
  }

  /** Unless a failure is hidden, the loop does the plain walk. */
  lemma DirectPlain(env: Env, up: bool, from: int, to: int, trace0: seq<Call>, fail0: int) returns (s: int, k: nat)
    requires InRange(env, up, from, to) && !Hiding(env, up, from, to, trace0, fail0)
    ensures Plain(env, up, from, to, trace0, fail0, Direct(env, up, from, to, trace0, fail0), s, k)
  {
    hide Direct, Forward, AllZero, CallsOf, Plain, Hides;
    ForwardNone(env, up, from);
    NoSteps(env, up, from, trace0, fail0);
    assert trace0 + Forward(env, up, from, from) == trace0;
    var err;
    s, k, err := Classify(env, up, from, from, to, trace0, fail0);
  }

  lemma DirectEnds(env: Env, up: bool, from: int, to: int, trace: seq<Call>, fail: int)
    requires Skipped(env, up, from, to)
    ensures Direct(env, up, from, to, trace, fail) == Ran(0, to, trace, fail)
  {
    DirectSkips(env, up, from, to, to, trace, fail);
  }

  /** What cpuhp_invoke_callback reports for a step of the loop is the step of the loop. */
  lemma OnceIs(env: Env, up: bool, s: int, trace0: seq<Call>, fail0: int, ret: int, k: nat, err: int, trace: seq<Call>, fail: int)
    requires Known(env, s) && !Empty(env, up, s)
    requires if fail0 == s then ret == -EAGAIN && fail == CPUHP_INVALID && trace == trace0
             else && fail == fail0
                  && if env.steps[s].multi then RanAll(env, up, s, trace0, ret, k, err, trace)
                     else ret == env.outcome(trace0, Call(s, up, None)) && trace == trace0 + [Call(s, up, None)]
    ensures Invoked(ret, trace, fail) == Once(env, up, s, trace0, fail0)
  {
    if fail0 != s && env.steps[s].multi { RanAllIs(env, up, s, trace0, ret, k, err, trace); }
  }

  // Failure and the way back.

  /** The state from which a failed walk is rolled back. */
  function Back(up: bool, state: int): int {
    if up then state - 1 else state + 1
  }

  /** Where the rollback gets to: it is the loop in the other direction; and if no undo callback fails, it runs the
      opposite callbacks of all the steps passed, in reverse order, and ends where the walk began. */
  ghost predicate WalkedBack(env: Env, up: bool, from: int, d: Ran, state: int, trace: seq<Call>) {
    && InRange(env, !up, Back(up, d.state), from)
    && (var u := Direct(env, !up, Back(up, d.state), from, d.trace, d.fail); state == u.state && trace == u.trace)
    && (var undo := Forward(env, !up, Back(up, d.state), from);
        AllZero(env, d.trace, undo) && !Passes(env, !up, Back(up, d.state), from, d.fail) ==>
          state == from && trace == d.trace + undo)
  }

  lemma BackFrom(env: Env, up: bool, from: int, to: int, trace: seq<Call>, fail: int)
    requires InRange(env, up, from, to)
    ensures var d := Direct(env, up, from, to, trace, fail);
            && Known(env, d.state) && Known(env, from)
            && (d.ret != 0 ==> InRange(env, !up, Back(up, d.state), from) && Known(env, Back(up, d.state)))
  {
    hide Direct;
  }

  lemma BackTo(env: Env, up: bool, from: int, to: int, trace: seq<Call>, fail: int, u: Ran)
    requires InRange(env, up, from, to)
    requires var d := Direct(env, up, from, to, trace, fail);
             d.ret != 0 && InRange(env, !up, Back(up, d.state), from)
             && u == Direct(env, !up, Back(up, d.state), from, d.trace, d.fail)
    ensures WalkedBack(env, up, from, Direct(env, up, from, to, trace, fail), u.state, u.trace)
  {
    hide Direct, Forward, AllZero, Passes;
    var d := Direct(env, up, from, to, trace, fail);
    var back := Back(up, d.state);
    if AllZero(env, d.trace, Forward(env, !up, back, from)) && !Passes(env, !up, back, from, d.fail) {
      DirectSucceeds(env, !up, back, from, d.trace, d.fail);
    }
  }

  /** The calls made on the way and the error returned, when no error was hidden. */
  ghost predicate Accounted(env: Env, up: bool, from: int, to: int, trace0: seq<Call>, fail0: int, ret: int, s: int, k: nat)
    requires InRange(env, up, from, to)
  {
    var d := Direct(env, up, from, to, trace0, fail0);
    if ret == 0 then d.trace == trace0 + Forward(env, up, from, to) && AllZero(env, trace0, Forward(env, up, from, to))
    else && Blames(env, up, from, to, trace0, fail0, ret, s, k) && d.state == After(up, s)
         && d.trace == trace0 + FailedCalls(env, up, from, s, k)
  }

  lemma AccountFor(env: Env, up: bool, from: int, to: int, trace0: seq<Call>, fail0: int) returns (s: int, k: nat)
    requires InRange(env, up, from, to)
    ensures !Hiding(env, up, from, to, trace0, fail0) ==>
              Accounted(env, up, from, to, trace0, fail0, Direct(env, up, from, to, trace0, fail0).ret, s, k)
  {
    hide Direct, Forward, AllZero, FirstFailure, CallsOf;
    s, k := 0, 0;
    if !Hiding(env, up, from, to, trace0, fail0) { s, k := DirectPlain(env, up, from, to, trace0, fail0); }
  }

  lemma NothingToUndo(env: Env, up: bool, at: int, trace: seq<Call>, fail: int)
    requires InRange(env, up, at, at)
    ensures Direct(env, up, at, at, trace, fail) == Ran(0, at, trace, fail)
  {
  }
}
