/** The methods of kernel/cpu.c that walk the hotplug steps of one CPU, directly or through its AP thread. */
module Hotplug {
  import opened Wrappers
  import opened HotplugWalks
  import opened HotplugDirect
  import opened HotplugKicks
  import opened HotplugCalls
  import opened HotplugLaws

  /** The state lies in the table or already beyond any target of the walk. */
  predicate Placed(env: Env, up: bool, state: int) {
    if up then 0 <= state else state < |env.steps|
  }

  /** The calls made since `before` are all the callbacks between two states, in order. */
  ghost predicate Walks(env: Env, up: bool, from: int, to: int, before: seq<Call>, trace: seq<Call>) {
    before <= trace && Consists(env.steps, up, from, to, trace[|before|..])
  }

  lemma ForwardWalks(env: Env, up: bool, from: int, to: int, before: seq<Call>)
    requires InRange(env, up, from, to)
    ensures Walks(env, up, from, to, before, before + Forward(env, up, from, to))
  {
    hide Consists, Forward;
    ForwardMeans(env, up, from, to);
    var calls := Forward(env, up, from, to);
    assert (before + calls)[|before|..] == calls;
  }

  /** The loop that reports success, and no error was hidden. */
  lemma DirectWalks(env: Env, up: bool, from: int, to: int, before: seq<Call>, fail: int)
    requires InRange(env, up, from, to)
    ensures var d := Direct(env, up, from, to, before, fail);
            d.ret == 0 && !Hiding(env, up, from, to, before, fail) ==> Walks(env, up, from, to, before, d.trace)
  {
    hide Direct, Walks, Forward, AllZero, Hiding;
    if !Hiding(env, up, from, to, before, fail) {
      var s, k := DirectPlain(env, up, from, to, before, fail);
      ForwardWalks(env, up, from, to, before);
    }
  }

  class Cpu {
    const env: Env
    // CONFIG_HOTPLUG_CPU, and the number of CPUHP_BRINGUP_CPU.
    const hotplug: bool
    const bringupCpu: int
    var state: int
    var target: int
    var fail: int
    var rollback: bool
    var bringup: bool
    var last: Option<Node>
    var trace: seq<Call>
    // The AP hotplug thread: whether it is to run, single-callback mode, its result, completions signalled.
    var shouldRun: bool
    var single: bool
    var cbState: int
    var node: Option<Node>
    var result: int
    var done: nat

    /** One callback. */
    method CallBack(c: Call) returns (ret: int)
      modifies this`trace
      ensures trace == old(trace) + [c] && ret == env.outcome(old(trace), c)
    {
      ret := env.outcome(trace, c);
      trace := trace + [c];
    }

    /** The instance loop with lastp == &st->last. */
    method InstancesToLast(s: int, up: bool) returns (ret: int, ghost k: nat)
      requires Known(env, s) && !Empty(env, up, s) && env.steps[s].multi
      modifies this`last, this`trace
      ensures RanToLast(env, up, s, old(last), old(trace), ret, k, last, trace)
    {
      var nodes := env.steps[s].instances;
      ghost var calls := Attempts(env, up, s, last);
      var i := 0;
      ret := 0;
      while i < |nodes| && !(last == Some(nodes[i]))
        invariant 0 <= i <= |calls| && last == old(last)
        invariant i <= |nodes| && forall j | 0 <= j < i :: last != Some(nodes[j])
        invariant trace == old(trace) + calls[..i] && AllZero(env, old(trace), calls[..i])
      {
        StopAtAfter(nodes, last, i);
        ret := CallBack(Call(s, up, Some(nodes[i])));
        if ret != 0 {
          last := Some(nodes[i]);
          k := i + 1;
          return;
        }
        AllZeroSnoc(env, old(trace), calls[..i], calls[i]);
        assert calls[..i] + [calls[i]] == calls[..i + 1];
        i := i + 1;
      }
      StopAtIs(nodes, last, i);
      k := i;
      assert calls[..i] == calls;
      last := None;
      ret := 0;
    }

    /** The instance loop with lastp == NULL, including its own rollback. */
    method InstancesAll(s: int, up: bool) returns (ret: int, ghost k: nat, ghost err: int)
      requires Known(env, s) && !Empty(env, up, s) && env.steps[s].multi
      modifies this`trace
      ensures RanAll(env, up, s, old(trace), ret, k, err, trace)
    {
      var nodes := env.steps[s].instances;
      ghost var calls := CallsOf(env, up, s);
      var cnt := 0;
      ret, k, err := 0, 0, 0;
      while cnt < |nodes|
        invariant 0 <= cnt <= |nodes| == |calls|
        invariant trace == old(trace) + calls[..cnt] && AllZero(env, old(trace), calls[..cnt])
      {
        ret := CallBack(Call(s, up, Some(nodes[cnt])));
        if ret != 0 {
          break;
        }
        AllZeroSnoc(env, old(trace), calls[..cnt], calls[cnt]);
        assert calls[..cnt] + [calls[cnt]] == calls[..cnt + 1];
        cnt := cnt + 1;
      }
      if cnt == |nodes| {
        assert calls[..cnt] == calls;
        return 0, cnt, 0;
      }
      k, err := cnt + 1, ret;
      ghost var undone := UndoneInstances(env, up, s, k);
      assert trace == old(trace) + calls[..k];
      if Empty(env, !up, s) {
        return;
      }
      ghost var failed := trace;
      for i := 0 to cnt
        invariant trace == failed + undone[..i]
        invariant ret == LastResult(env, failed, undone[..i], err)
      {
        hide LastResult, UndoneInstances;
        assert undone[i] == Call(s, !up, Some(nodes[i]));
        assert undone[..i + 1] == undone[..i] + [undone[i]];
        LastResultIs(env, failed, undone[..i], undone[i], err);
        ret := CallBack(Call(s, !up, Some(nodes[i])));
        assert trace == failed + undone[..i + 1];
      }
      assert undone[..cnt] == undone;
    }

    /** cpuhp_next_state: skips empty steps and moves the state ahead of the step to run. */
    method NextState(up: bool, tgt: int) returns (run: bool, s: int)
      requires Known(env, tgt) && Placed(env, up, state)
      modifies this`state
      ensures InRange(env, up, old(state), tgt) ==> Known(env, state)
      ensures run ==> && Known(env, s) && !Empty(env, up, s) && state == After(up, s)
                      && Skipped(env, up, old(state), Before(up, s)) && InRange(env, up, state, tgt)
      ensures !run && InRange(env, up, old(state), tgt) ==> state == tgt && Skipped(env, up, old(state), tgt)
      ensures !InRange(env, up, old(state), tgt) ==> !run && state == old(state)
      ensures run && up ==> 0 <= old(state) < s == state <= tgt < |env.steps| && env.steps[s].startup
                            && Uncalled(env.steps, true, old(state), s - 1)
      ensures run && !up ==> 0 <= tgt <= state == s - 1 < old(state) < |env.steps| && env.steps[s].teardown
                             && Uncalled(env.steps, false, s, old(state))
      ensures !run && up && old(state) <= tgt ==> state == tgt && Uncalled(env.steps, true, old(state), tgt)
      ensures !run && !up && tgt <= old(state) ==> state == tgt && Uncalled(env.steps, false, tgt, old(state))
    {
      s := state;
      while true
        invariant if InRange(env, up, old(state), tgt)
                  then Skipped(env, up, old(state), state) && InRange(env, up, state, tgt)
                  else state == old(state)
        decreases if up then tgt - state else state - tgt
      {
        if up {
          if state >= tgt {
            if old(state) <= tgt { NoneCalled(env, true, old(state), state); }
            return false, s;
          }
          state := state + 1;
          s := state;
        } else {
          if state <= tgt {
            if tgt <= old(state) { NoneCalled(env, false, old(state), state); }
            return false, s;
          }
          s := state;
          state := state - 1;
        }
        if !Empty(env, up, s) {
          NoneCalled(env, up, old(state), Before(up, s));
          return true, s;
        }
        forall f: int
          ensures !Passes(env, up, old(state), state, f)
        {
          PassesSplit(env, up, old(state), Before(up, s), state, f);
        }
      }
    }

    /** cpuhp_invoke_callback; lastp says whether the caller passed &st->last or NULL. */
    method Invoke(s: int, up: bool, node: Option<Node>, lastp: bool) returns (ret: int, ghost k: nat, ghost err: int)
      requires Known(env, s)
      modifies this`fail, this`last, this`trace
      ensures old(fail) == s ==>
                ret == -11 && k == 0 && fail == -1 && trace == old(trace) && last == old(last)
      ensures old(fail) != s ==> fail == old(fail)
      ensures old(fail) != s && Empty(env, up, s) ==> ret == 0 && trace == old(trace) && last == old(last)
      ensures old(fail) != s && !Empty(env, up, s) && (!env.steps[s].multi || node.Some?) ==>
                var c := Call(s, up, if env.steps[s].multi then node else None);
                k == 1 && ret == env.outcome(old(trace), c) && trace == old(trace) + [c] && last == old(last)
      ensures old(fail) != s && !Empty(env, up, s) && env.steps[s].multi && node.None? && !lastp ==>
                && RanAll(env, up, s, old(trace), ret, k, err, trace) && last == old(last)
                && (ret, trace) == Instances(env, up, s, old(trace))
      ensures !Empty(env, up, s) && node.None? && lastp ==>
                RanOnThread(env, up, s, old(last), old(trace), old(fail), ret, k, last, trace, fail)
    {
      k, err := 0, 0;
      if fail == s {
        fail := CPUHP_INVALID;
        return -EAGAIN, 0, 0;
      }
      if Empty(env, up, s) {
        return 0, 0, 0;
      }
      if !env.steps[s].multi {
        ret := CallBack(Call(s, up, None));
        k := 1;
      } else if node.Some? {
        ret := CallBack(Call(s, up, node));
        k := 1;
      } else if lastp {
        ret, k := InstancesToLast(s, up);
      } else {
        ret, k, err := InstancesAll(s, up);
        RanAllIs(env, up, s, old(trace), ret, k, err, trace);
      }
    }

    /** __cpuhp_invoke_callback_range with nofail false, over steps of any kind. */
    method InvokeRange(up: bool, tgt: int) returns (ret: int)
      requires Known(env, state) && Known(env, tgt)
      modifies this`state, this`fail, this`last, this`trace
      ensures last == old(last)
      ensures if InRange(env, up, old(state), tgt)
              then Ran(ret, state, trace, fail) == Direct(env, up, old(state), tgt, old(trace), old(fail))
              else ret == 0 && state == old(state) && trace == old(trace) && fail == old(fail)
      ensures InRange(env, up, old(state), tgt) && ret == 0 && !Hiding(env, up, old(state), tgt, old(trace), old(fail)) ==>
                Walks(env, up, old(state), tgt, old(trace), trace)
    {
      hide Direct, Once, RanAll, Walks, Hiding;
      if InRange(env, up, state, tgt) { DirectWalks(env, up, state, tgt, trace, fail); }
      ret := 0;
      while true
        invariant Known(env, state) && ret == 0 && last == old(last)
        invariant !InRange(env, up, old(state), tgt) ==> state == old(state) && trace == old(trace) && fail == old(fail)
        invariant InRange(env, up, old(state), tgt) ==>
                    && InRange(env, up, state, tgt)
                    && Direct(env, up, old(state), tgt, old(trace), old(fail)) == Direct(env, up, state, tgt, trace, fail)
        decreases if up then tgt - state else state - tgt
      {
        ghost var at, trace1, fail1 := state, trace, fail;
        var run, step := NextState(up, tgt);
        if !run {
          if InRange(env, up, old(state), tgt) {
            DirectEnds(env, up, at, tgt, trace, fail);
          }
          return;
        }
        DirectStep(env, up, at, step, tgt, trace, fail);
        var err, k', failure := Invoke(step, up, None, false);
        OnceIs(env, up, step, trace1, fail1, err, k', failure, trace, fail);
        if err != 0 {
          return err;
        }
      }
    }

    /** cpuhp_set_state */
    method SetState(tgt: int) returns (prev: int)
      modifies this`rollback, this`last, this`target, this`bringup, this`single
      ensures !single && prev == state && !rollback && last == None && target == tgt && bringup == (state < tgt)
    {
      prev := state;
      bringup := state < tgt;
      rollback := false;
      last := None;
      target := tgt;
      single := false;
    }

    /** cpuhp_reset_state */
    method ResetState(prev: int)
      modifies this`rollback, this`target, this`bringup, this`state
      ensures target == prev && rollback
      ensures old(rollback) ==> state == old(state) && bringup == old(bringup)
      ensures !old(rollback) ==> bringup == !old(bringup)
      ensures !old(rollback) ==>
                state == if last.Some? then old(state) else if old(bringup) then old(state) - 1 else old(state) + 1
    {
      target := prev;
      if rollback {
        return;
      }
      rollback := true;
      if last.None? {
        if bringup {
          state := state - 1;
        } else {
          state := state + 1;
        }
      }
      bringup := !bringup;
    }

    /** What set_state establishes for a walk in the given direction. */
    predicate Ready(up: bool)
      reads this
    {
      bringup == up && !rollback && last.None?
    }

    /**
     cpuhp_up_callbacks. A failure is rolled back over all the steps passed, as far as the CPU can be rolled back; and
     unless a multi-instance step hid an error, the steps passed are those before the first callback that failed.
     */
    method UpCallbacks(tgt: int) returns (ret: int, ghost s: int, ghost k: nat)
      requires Known(env, state) && Known(env, tgt) && state <= tgt && Ready(true)
      modifies this
      ensures var d := Direct(env, true, old(state), tgt, old(trace), old(fail));
              && ret == d.ret
              && if ret == 0 then state == tgt && trace == d.trace
                 else && rollback && !bringup
                      && if hotplug || d.state - 1 <= bringupCpu
                         then WalkedBack(env, true, old(state), d, state, trace)
                         else state == d.state - 1 && trace == d.trace
      ensures !Hiding(env, true, old(state), tgt, old(trace), old(fail)) ==>
                Accounted(env, true, old(state), tgt, old(trace), old(fail), ret, s, k)
    {
      hide Direct, Plain, Hiding, WalkedBack, Accounted;
      var prev := state;
      ghost var d := Direct(env, true, state, tgt, trace, fail);
      s, k := AccountFor(env, true, state, tgt, trace, fail);
      BackFrom(env, true, prev, tgt, trace, fail);
      ret := InvokeRange(true, tgt);
      if ret != 0 {
        ResetState(prev);
        if hotplug || state <= bringupCpu {
          var undone := InvokeRange(false, prev);
          BackTo(env, true, prev, tgt, old(trace), old(fail), Ran(undone, state, trace, fail));
        }
      }
    }

    /** cpuhp_down_callbacks: the mirror image. */
    method DownCallbacks(tgt: int) returns (ret: int, ghost s: int, ghost k: nat)
      requires Known(env, state) && Known(env, tgt) && tgt <= state && Ready(false)
      modifies this
      ensures var d := Direct(env, false, old(state), tgt, old(trace), old(fail));
              && ret == d.ret
              && if ret == 0 then state == tgt && trace == d.trace
                 else rollback && bringup && WalkedBack(env, false, old(state), d, state, trace)
      ensures !Hiding(env, false, old(state), tgt, old(trace), old(fail)) ==>
                Accounted(env, false, old(state), tgt, old(trace), old(fail), ret, s, k)
    {
      hide Direct, Plain, Hiding, WalkedBack, Accounted;
      var prev := state;
      ghost var d := Direct(env, false, state, tgt, trace, fail);
      s, k := AccountFor(env, false, state, tgt, trace, fail);
      BackFrom(env, false, prev, tgt, trace, fail);
      ret := InvokeRange(false, tgt);
      if ret != 0 {
        ResetState(prev);
        var undone := 0;
        if state < prev {
          undone := InvokeRange(true, prev);
        } else {
          NothingToUndo(env, true, prev, trace, fail);
        }
        BackTo(env, false, prev, tgt, old(trace), old(fail), Ran(undone, state, trace, fail));
      }
    }

    /** cpuhp_thread_fun: one callback, or the end of the walk. Returns, for the proof, the step and callbacks run. */
    method ThreadFun() returns (ghost ran: bool, ghost s: int, ghost k: nat)
      requires shouldRun && Placed(env, bringup, state) && Known(env, target) && Known(env, cbState)
      modifies this`shouldRun, this`state, this`fail, this`last, this`trace, this`result, this`done
      ensures done == old(done) + if shouldRun then 0 else 1
      ensures !single && node.None? ==>
                if !ran
                then && !shouldRun && result == old(result) && trace == old(trace) && last == old(last) && fail == old(fail)
                     && (if InRange(env, bringup, old(state), target)
                         then state == target && Skipped(env, bringup, old(state), target)
                         else state == old(state))
                else && Known(env, s) && !Empty(env, bringup, s) && state == After(bringup, s)
                     && Skipped(env, bringup, old(state), Before(bringup, s)) && InRange(env, bringup, state, target)
                     && shouldRun == (result == 0)
                     && RanOnThread(env, bringup, s, old(last), old(trace), old(fail), result, k, last, trace, fail)
    {
      hide Skipped, RanOnThread;
      var up := bringup;
      var step := cbState;
      ran, s, k := true, step, 0;
      if single {
        shouldRun := false;
      } else {
        var run;
        run, step := NextState(up, target);
        shouldRun := run;
        ran, s := run, step;
        if !run {
          done := done + 1;
          return;
        }
      }
      ghost var err;
      result, k, err := Invoke(step, up, node, true);
      if result != 0 {
        shouldRun := false;
      }
      if !shouldRun {
        done := done + 1;
      }
    }

    /** __cpuhp_kick_ap in a state transition: wakes the AP thread, which runs until it signals completion. */
    method Kick() returns (ghost s: int, ghost k: nat)
      requires Placed(env, bringup, state) && Known(env, target) && Known(env, cbState) && !single && node.None?
      modifies this`shouldRun, this`state, this`fail, this`last, this`trace, this`result, this`done
      ensures old(state) == target ==> unchanged(this)
      ensures old(state) != target ==> done == old(done) + 1 && !shouldRun
      ensures !InRange(env, bringup, old(state), target) ==>
                state == old(state) && trace == old(trace) && (old(state) != target ==> result == 0)
      ensures InRange(env, bringup, old(state), target) ==> Known(env, state)
      ensures old(state) != target && InRange(env, bringup, old(state), target) && Partial(env, bringup, old(state), old(last)) ==>
                && KickWalked(env, bringup, old(state), target, old(last), old(trace), result, s, k, state, last, trace)
                && Injected(env, bringup, old(state), target, old(fail), result, s, k, fail)
    {
      hide RanOnThread, Underway, KickWalked, Injected, Skipped, Partial, Passes, CallsOf, AllZero, Forward;
      s, k := state, 0;
      if state == target {
        return;
      }
      result := 0;
      shouldRun := true;
      ghost var from, up, last0, trace0, fail0 := state, bringup, last, trace, fail;
      ghost var ran, between := false, InRange(env, up, from, target);
      ghost var ok := between && Partial(env, up, from, last0);
      if ok { KickBegins(env, up, from, last0, trace0, fail0); }
      while shouldRun
        invariant done == old(done) + if shouldRun then 0 else 1
        invariant if between then InRange(env, up, from, state) && InRange(env, up, state, target)
                  else state == from && trace == trace0 && result == 0
        invariant shouldRun ==> result == 0
        invariant ok && shouldRun ==> fail == fail0 && Underway(env, up, from, state, last0, trace0, fail0, last, trace)
        invariant ok && !shouldRun ==>
                    && KickWalked(env, up, from, target, last0, trace0, result, s, k, state, last, trace)
                    && Injected(env, up, from, target, fail0, result, s, k, fail)
        decreases shouldRun, if up then target - state else state - target
      {
        ghost var at, last1, trace1 := state, last, trace;
        ran, s, k := ThreadFun();
        if ran { StepInRange(env, up, at, s, target); }
        if ok {
          if !ran {
            KickDone(env, up, from, at, target, last0, trace0, fail0, last, trace, s, k);
          } else if result == 0 {
            KickSucceeds(env, up, from, at, s, last0, trace0, fail0, k, last1, trace1, last, trace, fail);
          } else {
            KickFails(env, up, from, at, s, target, last0, trace0, fail0, result, k, last1, trace1, last, trace, fail);
          }
        }
      }
    }

    /** What the first kick leaves behind when a callback failed. */
    ghost predicate Stranded(prev: int, to: int, fail0: int, s: int, k: nat)
      requires InRange(env, bringup, prev, to)
      reads this
    {
      && result != 0 && FailedAt(env, bringup, prev, to, s, k) && state == After(bringup, s)
      && last == (if k > 0 && env.steps[s].multi then CallsOf(env, bringup, s)[k - 1].node else None)
      && Injected(env, bringup, prev, to, fail0, result, s, k, fail)
    }

    /** The second half of cpuhp_kick_ap, after step s failed on its k-th callback. */
    method Unwind(prev: int, ghost to: int, ghost fail0: int, ghost s: int, ghost k: nat)
      requires WellFormed(env) && Known(env, state) && Known(env, prev) && Known(env, cbState)
      requires !single && node.None? && !rollback
      modifies this
      ensures old(InRange(env, bringup, prev, to) && Stranded(prev, to, fail0, s, k))
              && UndoneWell(env, old(bringup), prev, fail0, s, k, old(trace)) ==>
                && state == prev
                && trace == old(trace) + UndoCalls(env, old(bringup), prev, s, k)
                && (!NothingPassed(env, old(bringup), prev, s, k) ==> result == 0)
      ensures old(InRange(env, bringup, prev, to) && Stranded(prev, to, fail0, s, k)) ==>
                && Known(env, state)
                && (NothingPassed(env, old(bringup), prev, s, k) ==>
                      result == old(result) && state == prev && trace == old(trace))
      ensures node == old(node) && cbState == old(cbState)
      ensures old(state) == prev && !old(bringup) && old(last).None? ==>
                state == prev + 1 && trace == old(trace) && done == old(done) + 1 && result == 0
    {
      hide KickWalked, Injected, FailedAt, CallsOf, Forward, ForwardFrom, UndoPartial, Partial, AllZero, Passes;
      ghost var up, ret, last1, trace1, fail1 := bringup, result, last, trace, fail;
      ghost var ok := InRange(env, up, prev, to) && Stranded(prev, to, fail0, s, k) && UndoneWell(env, up, prev, fail0, s, k, trace);
      ResetState(prev);
      ghost var from := state;
      if old(InRange(env, bringup, prev, to) && Stranded(prev, to, fail0, s, k)) {
        UndoWhere(env, up, prev, to, s, k, last1, from);
      }
      if ok {
        UndoStart(env, up, prev, to, fail0, ret, s, k, last1, fail1, from);
      }
      var s', k' := Kick();
      if ok && from != prev {
        UndoKickSucceeds(env, !up, from, prev, last1, fail1, trace1, result, s', k', state, last, trace, fail);
        UndoArrives(env, !up, from, prev, last1, trace1, s', k', state, last, trace);
      } else if ok {
        assert UndoCalls(env, up, prev, s, k) == [] by { UndoNothing(env, up, prev, to, s, k, last1, from); }
      }
    }

    /**
     cpuhp_kick_ap: walks to tgt on the AP; a failure is undone by a second kick. At the target already, it answers with
     the result of the kick before, and if that was an error leaves the state one too high.
     */
    method KickAp(tgt: int) returns (ret: int, ghost s: int, ghost k: nat)
      requires WellFormed(env) && Known(env, state) && Known(env, tgt) && Known(env, cbState) && node.None?
      modifies this
      ensures old(state) == tgt ==>
                && ret == old(result) && trace == old(trace)
                && if ret == 0 then state == tgt && done == old(done)
                   else state == tgt + 1 && done == old(done) + 1 && result == 0
      ensures node == old(node) && cbState == old(cbState) && (old(state) != tgt ==> Known(env, state))
      ensures old(state) != tgt && ret == 0 ==>
                var up := old(state) < tgt;
                && state == tgt && done == old(done) + 1 && result == 0
                && trace == old(trace) + Forward(env, up, old(state), tgt) && Walks(env, up, old(state), tgt, old(trace), trace)
                && AllZero(env, old(trace), Forward(env, up, old(state), tgt)) && !Passes(env, up, old(state), tgt, old(fail))
      ensures old(state) != tgt && ret != 0 ==>
                var up := old(state) < tgt;
                && Blames(env, up, old(state), tgt, old(trace), old(fail), ret, s, k)
                && (var tried := old(trace) + FailedCalls(env, up, old(state), s, k);
                    && (UndoneWell(env, up, old(state), old(fail), s, k, tried) ==>
                          state == old(state) && trace == tried + UndoCalls(env, up, old(state), s, k))
                    && if NothingPassed(env, up, old(state), s, k)
                       then result == ret && state == old(state) && trace == tried
                       else UndoneWell(env, up, old(state), old(fail), s, k, tried) ==> result == 0)
    {
      hide Forward, CallsOf, AllZero, FirstFailure, Passes, UndoCalls, UndoneWell, Walks;
      var prev := SetState(tgt);
      if state != tgt {
        NothingCut(env, bringup, state, tgt);
        ForwardWalks(env, bringup, state, tgt, trace);
      }
      s, k := Kick();
      ret := result;
      if ret != 0 {
        Unwind(prev, tgt, old(fail), s, k);
      }
    }
  }

  /**
   The same transition from the same state, once by the direct loop and once by kicking the AP thread: the calls made,
   the state, the result and the injected failure left are the same exactly if no multi-instance step hides a failure.
   */
  method BothWays(direct: Cpu, thread: Cpu, tgt: int) returns (ret: int)
    requires direct != thread && direct.env == thread.env
    requires direct.state == thread.state && direct.trace == thread.trace && direct.fail == thread.fail
    requires Known(direct.env, direct.state) && Known(direct.env, tgt)
    requires Known(thread.env, thread.cbState) && thread.node.None?
    modifies direct, thread
    ensures var up := old(direct.state) < tgt;
            var hiding := Hiding(direct.env, up, old(direct.state), tgt, old(direct.trace), old(direct.fail));
            && (!hiding <==> direct.trace == thread.trace)
            && (!hiding ==> direct.state == thread.state && direct.fail == thread.fail)
            && (!hiding ==> if old(direct.state) != tgt then ret == thread.result else ret == 0 && thread.result == old(thread.result))
  {
    hide Direct, Hiding, Walked, Injected, AllZero, Forward;
    ghost var env, up, from, trace, fail := direct.env, direct.state < tgt, direct.state, direct.trace, direct.fail;
    ret := direct.InvokeRange(direct.state < tgt, tgt);
    var prev := thread.SetState(tgt);
    NothingCut(env, up, from, tgt);
    var s, k := thread.Kick();
    if from == tgt {
      NothingToWalk(env, up, from, trace, fail);
      SameUnlessHiding(env, up, from, tgt, trace, fail, 0, s, k, from, trace, fail);
    } else {
      WholeKick(env, up, from, tgt, trace, thread.result, s, k, thread.state, thread.last, thread.trace);
      SameUnlessHiding(env, up, from, tgt, trace, fail, thread.result, s, k, thread.state, thread.trace, thread.fail);
    }
  }

  /**
   A kick to another state, and then one to the state the CPU is left in. If the first was rolled back or there was nothing
   to roll back, the second reports an error exactly if the first did at its very first step: that error is still there.
   */
  method KickTwice(c: Cpu, tgt: int) returns (first: int, again: int, ghost s: int, ghost k: nat)
    requires WellFormed(c.env) && Known(c.env, c.state) && Known(c.env, tgt) && c.state != tgt
    requires Known(c.env, c.cbState) && c.node.None?
    modifies c
    ensures var up := old(c.state) < tgt;
            var stale := first != 0 && NothingPassed(c.env, up, old(c.state), s, k);
            && (first != 0 ==> Blames(c.env, up, old(c.state), tgt, old(c.trace), old(c.fail), first, s, k))
            && (stale ==> again == first && c.state == old(c.state) + 1)
            && (first == 0 ==>
                  again == 0 && c.state == tgt && AllZero(c.env, old(c.trace), Forward(c.env, up, old(c.state), tgt)))
            && (first != 0 && !stale
                && UndoneWell(c.env, up, old(c.state), old(c.fail), s, k,
                              old(c.trace) + FailedCalls(c.env, up, old(c.state), s, k)) ==>
                  again == 0 && c.state == old(c.state))
  {
    hide Forward, CallsOf, AllZero, FirstFailure, Passes, UndoCalls, UndoneWell, FailedCalls, WellFormed;
    first, s, k := c.KickAp(tgt);
    ghost var s', k';
    again, s', k' := c.KickAp(c.state);
  }

  /** A table whose step 1 always fails with -5. */
  function FailingTable(): Env {
    Env([Step(false, false, false, []), Step(true, true, false, [])], (history: seq<Call>, c: Call) => -5)
  }

  lemma OneStepFails(env: Env, s: int, k: nat, ret: int, trace: seq<Call>)
    requires env == FailingTable()
    ensures Blames(env, true, 0, 1, trace, CPUHP_INVALID, ret, s, k) ==> ret == -5 && s == 1 && k == 1
    ensures !AllZero(env, trace, Forward(env, true, 0, 1))
  {
    var calls := CallsOf(env, true, 1);
    assert Forward(env, true, 0, 1) == calls + Forward(env, true, 1, 1) == calls == [Call(1, true, None)];
    assert forall h: seq<Call>, c: Call :: env.outcome(h, c) == -5;
    assert env.outcome(trace + calls[..0], calls[0]) != 0;
  }

  /** A kick to 1 fails, and a kick to 0, where the CPU still is, returns that error again and leaves it in state 1. */
  method StaleError(c: Cpu) returns (first: int, again: int)
    requires c.env == FailingTable() && c.state == 0 && c.cbState == 0 && c.node.None? && c.fail == CPUHP_INVALID
    modifies c
    ensures first == -5 && again == -5 && c.state == 1
  {
    ghost var s, k;
    first, again, s, k := KickTwice(c, 1);
    OneStepFails(c.env, s, k, first, old(c.trace));
  }
}
