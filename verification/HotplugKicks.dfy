/**
 Walks of the AP hotplug thread: a kick runs one callback at a time, remembers in `last` the instance at which a
 multi-instance step failed, and a second kick starts from there.
 */
module HotplugKicks {
  import opened Wrappers
  import opened HotplugWalks

  /** If the step is multi-instance, it has both callbacks or neither. */
  predicate Paired(env: Env, s: int)
    requires Known(env, s)
  {
    env.steps[s].multi ==> env.steps[s].startup == env.steps[s].teardown
  }

  /** The undo callbacks of the instances before the one that failed. */
  function UndoPartial(env: Env, up: bool, s: int, k: nat): seq<Call>
    requires Known(env, s)
  {
    if 0 < k <= |env.steps[s].instances| && env.steps[s].multi then NodeCalls(s, !up, env.steps[s].instances[..k - 1])
    else []
  }

  /** All that the second kick has to invoke after step s failed on its k-th callback. */
  function UndoCalls(env: Env, up: bool, from: int, s: int, k: nat): seq<Call>
    requires Known(env, s) && InRange(env, up, from, Before(up, s))
  {
    UndoPartial(env, up, s, k) + Forward(env, !up, Before(up, s), from)
  }

  /** The undo callbacks all succeed, the failing step has both callbacks if it is multi-instance, and no injected
      failure waits among the steps to undo. */
  ghost predicate UndoneWell(env: Env, up: bool, from: int, fail0: int, s: int, k: nat, tried: seq<Call>) {
    && Known(env, s) && InRange(env, up, from, Before(up, s)) && Paired(env, s)
    && AllZero(env, tried, UndoCalls(env, up, from, s, k))
    && (k > 0 ==> !Passes(env, !up, Before(up, s), from, fail0))
  }

  /** The first step on the way failed, and none of its instances is to be undone: the second kick finds nothing to do. */
  predicate NothingPassed(env: Env, up: bool, from: int, s: int, k: nat) {
    Known(env, s) && Before(up, s) == from && (k == 0 || !env.steps[s].multi)
  }

  /** If *lastp is set, the next step is the one it belongs to. */
  predicate Partial(env: Env, up: bool, from: int, last: Option<Node>) {
    last.Some? ==>
      var s := if up then from + 1 else from;
      Known(env, s) && env.steps[s].multi && !Empty(env, up, s) && last.value in env.steps[s].instances
  }

  /** What a walk invokes when the first step is cut short at *lastp. */
  function ForwardFrom(env: Env, up: bool, from: int, to: int, last: Option<Node>): seq<Call>
    requires InRange(env, up, from, to) && Partial(env, up, from, last)
  {
    if last.None? || from == to then Forward(env, up, from, to)
    else if up then Attempts(env, up, from + 1, last) + Forward(env, up, from + 1, to)
    else Attempts(env, up, from, last) + Forward(env, up, from - 1, to)
  }

  /** The outcome of a kick: the whole walk, or the failure of one step; *lastp then is the failing instance. */
  ghost predicate KickWalked(env: Env, up: bool, from: int, to: int, last0: Option<Node>, trace0: seq<Call>,
                       ret: int, s: int, k: nat, state: int, last: Option<Node>, trace: seq<Call>)
    requires InRange(env, up, from, to) && Partial(env, up, from, last0)
  {
    if ret == 0
    then && state == to && last == None && trace == trace0 + ForwardFrom(env, up, from, to, last0)
         && AllZero(env, trace0, ForwardFrom(env, up, from, to, last0))
    else && FailedAt(env, up, from, to, s, k) && state == After(up, s)
         && (k > 0 ==> !AllZero(env, trace0, ForwardFrom(env, up, from, to, last0)))
         && (last0.None? ==>
               && Walked(env, up, from, to, trace0, ret, s, k, state, trace)
               && last == if k > 0 && env.steps[s].multi then CallsOf(env, up, s)[k - 1].node else None)
  }

  /** *lastp stops the way back at the instance that failed. */
  lemma UndoInstances(env: Env, up: bool, s: int, k: nat, last: Option<Node>)
    requires WellFormed(env) && Known(env, s) && Paired(env, s) && env.steps[s].multi && !Empty(env, up, s)
    requires 0 < k <= |CallsOf(env, up, s)| && last == CallsOf(env, up, s)[k - 1].node
    ensures last.Some? && last.value in env.steps[s].instances && !Empty(env, !up, s)
    ensures Attempts(env, !up, s, last) == UndoPartial(env, up, s, k)
  {
    StopAtIs(env.steps[s].instances, last, k - 1);
  }

  lemma NoInstances(env: Env, up: bool, s: int, k: nat)
    requires Known(env, s) && (k == 0 || !env.steps[s].multi)
    ensures UndoPartial(env, up, s, k) == []
  {
  }

  /** What the second kick starts from, and what it has to invoke. */
  lemma UndoKick(env: Env, up: bool, prev: int, to: int, fail0: int, ret: int, s: int, k: nat,
                 last: Option<Node>, fail: int, from: int)
    requires WellFormed(env) && InRange(env, up, prev, to) && ret != 0
    requires FailedAt(env, up, prev, to, s, k) && Paired(env, s)
    requires last == if k > 0 && env.steps[s].multi then CallsOf(env, up, s)[k - 1].node else None
    requires from == if last.Some? then After(up, s) else Before(up, s)
    requires InRange(env, !up, Before(up, s), prev) && !Passes(env, !up, Before(up, s), prev, fail)
    requires Injected(env, up, prev, to, fail0, ret, s, k, fail)
    ensures InRange(env, !up, from, prev) && Partial(env, !up, from, last)
    ensures ForwardFrom(env, !up, from, prev, last) == UndoPartial(env, up, s, k) + Forward(env, !up, Before(up, s), prev)
    ensures !Passes(env, !up, from, prev, fail)
  {
    hide Forward, Attempts, UndoPartial, CallsOf, WellFormed;
    if k > 0 && env.steps[s].multi {
      UndoInstances(env, up, s, k, last);
      PassesSplit(env, !up, from, Before(up, s), prev, fail);
      PassesSplit(env, up, prev, Before(up, s), After(up, s), fail0);
    } else {
      NoInstances(env, up, s, k);
    }
  }

  lemma UndoKickSucceeds(env: Env, up: bool, from: int, to: int, last0: Option<Node>, fail0: int, trace0: seq<Call>,
                         ret: int, s: int, k: nat, state: int, last: Option<Node>, trace: seq<Call>, fail: int)
    requires InRange(env, up, from, to) && Partial(env, up, from, last0)
    requires AllZero(env, trace0, ForwardFrom(env, up, from, to, last0)) && !Passes(env, up, from, to, fail0)
    requires KickWalked(env, up, from, to, last0, trace0, ret, s, k, state, last, trace)
    requires Injected(env, up, from, to, fail0, ret, s, k, fail)
    ensures ret == 0
  {
  }

  lemma AttemptsAll(env: Env, up: bool, s: int)
    requires Known(env, s) && !Empty(env, up, s)
    ensures Attempts(env, up, s, None) == CallsOf(env, up, s)
  {
    var nodes := env.steps[s].instances;
    StopAtIs(nodes, None, |nodes|);
    assert nodes[..|nodes|] == nodes;
  }

  lemma KickEnds(env: Env, up: bool, from: int, at: int, to: int, last0: Option<Node>)
    requires InRange(env, up, from, at) && Skipped(env, up, at, to) && Partial(env, up, from, last0) && from != to
    ensures InRange(env, up, from, to)
    ensures at == from ==> last0.None?
    ensures ForwardFrom(env, up, from, to, last0) == ForwardFrom(env, up, from, at, last0)
    ensures forall f: int :: Passes(env, up, from, to, f) <==> Passes(env, up, from, at, f)
  {
    WalkEnds(env, up, from, at, to);
    var s := if up then from + 1 else from;
    if at == from {
      assert !Passes(env, up, at, to, s);
    } else if last0.Some? {
      WalkEnds(env, up, After(up, s), at, to);
    }
  }

  /** The thread reaches step s in the middle of a kick. */
  predicate Underway(env: Env, up: bool, from: int, at: int, last0: Option<Node>, trace0: seq<Call>, fail0: int,
                     last: Option<Node>, trace: seq<Call>)
    requires InRange(env, up, from, at) && Partial(env, up, from, last0)
  {
    if at == from then last == last0 && trace == trace0
    else && last == None && trace == trace0 + ForwardFrom(env, up, from, at, last0)
         && AllZero(env, trace0, ForwardFrom(env, up, from, at, last0)) && !Passes(env, up, from, at, fail0)
  }

  /** The first step is not empty, so it is the next one. */
  lemma NextIs(env: Env, up: bool, at: int, s: int, first: int)
    requires Known(env, at) && Skipped(env, up, at, Before(up, s)) && InRange(env, up, at, Before(up, s))
    requires first == (if up then at + 1 else at) && Known(env, first) && !Empty(env, up, first)
    requires Known(env, s)
    ensures s == first
  {
    assert !Passes(env, up, at, Before(up, s), first);
  }

  /** The callbacks that step s adds in a kick. */
  lemma KickReaches(env: Env, up: bool, from: int, at: int, s: int, last0: Option<Node>, last1: Option<Node>)
    requires InRange(env, up, from, at) && Skipped(env, up, at, Before(up, s)) && Partial(env, up, from, last0)
    requires Known(env, s) && !Empty(env, up, s) && InRange(env, up, Before(up, s), After(up, s))
    requires last1 == if at == from then last0 else None
    ensures InRange(env, up, from, After(up, s))
    ensures ForwardFrom(env, up, from, After(up, s), last0)
         == ForwardFrom(env, up, from, at, last0) + Attempts(env, up, s, last1)
    ensures last1.Some? ==> at == from == Before(up, s)
  {
    hide Forward, Attempts, Passes, Skipped, CallsOf;
    WalkOneMore(env, up, from, at, s);
    if last1.None? {
      AttemptsAll(env, up, s);
    }
    if last0.Some? {
      var first := if up then from + 1 else from;
      ForwardNone(env, up, from);
      ForwardNone(env, up, After(up, s));
      if at == from {
        NextIs(env, up, at, s, first);
      } else {
        WalkOneMore(env, up, After(up, first), at, s);
        assert Attempts(env, up, first, last0) + (Forward(env, up, After(up, first), at) + CallsOf(env, up, s))
            == Attempts(env, up, first, last0) + Forward(env, up, After(up, first), at) + CallsOf(env, up, s);
      }
    }
  }

  lemma NothingYet(env: Env, up: bool, from: int, last: Option<Node>, fail: int)
    requires InRange(env, up, from, from) && Partial(env, up, from, last)
    ensures ForwardFrom(env, up, from, from, last) == [] && !Passes(env, up, from, from, fail)
    ensures forall h :: AllZero(env, h, ForwardFrom(env, up, from, from, last))
  {
  }

  /** A callback of the AP thread that went well. */
  lemma RanWell(env: Env, up: bool, s: int, last1: Option<Node>, trace1: seq<Call>, fail0: int,
                k: nat, last: Option<Node>, trace: seq<Call>, fail: int)
    requires Known(env, s) && !Empty(env, up, s)
    requires RanOnThread(env, up, s, last1, trace1, fail0, 0, k, last, trace, fail)
    ensures fail0 != s && fail == fail0 && (last == None || (last == last1 && !env.steps[s].multi))
    ensures trace == trace1 + Attempts(env, up, s, last1) && AllZero(env, trace1, Attempts(env, up, s, last1))
  {
    var calls := Attempts(env, up, s, last1);
    if !env.steps[s].multi {
      AllZeroOne(env, trace1, Call(s, up, None));
    } else {
      assert calls[..k] == calls;
    }
  }

  lemma KickSucceeds(env: Env, up: bool, from: int, at: int, s: int, last0: Option<Node>, trace0: seq<Call>, fail0: int,
                     k: nat, last1: Option<Node>, trace1: seq<Call>, last: Option<Node>, trace: seq<Call>, fail: int)
    requires InRange(env, up, from, at) && Skipped(env, up, at, Before(up, s)) && Partial(env, up, from, last0)
    requires Known(env, s) && !Empty(env, up, s) && InRange(env, up, Before(up, s), After(up, s))
    requires Underway(env, up, from, at, last0, trace0, fail0, last1, trace1)
    requires RanOnThread(env, up, s, last1, trace1, fail0, 0, k, last, trace, fail)
    ensures InRange(env, up, from, After(up, s)) && fail == fail0
    ensures Underway(env, up, from, After(up, s), last0, trace0, fail0, last, trace)
  {
    hide Forward, ForwardFrom, Attempts, Skipped, AllZero, Passes;
    KickReaches(env, up, from, at, s, last0, last1);
    WalkOneMore(env, up, from, at, s);
    RanWell(env, up, s, last1, trace1, fail0, k, last, trace, fail);
    var sofar, calls := ForwardFrom(env, up, from, at, last0), Attempts(env, up, s, last1);
    if at == from { NothingYet(env, up, from, last0, fail0); }
    assert trace1 == trace0 + sofar && AllZero(env, trace0, sofar);
    AllZeroConcat(env, trace0, sofar, calls);
  }

  /** A walk that failed on its k-th callback did not get through. */
  lemma NotThrough(env: Env, history: seq<Call>, sofar: seq<Call>, calls: seq<Call>, more: seq<Call>, k: nat, err: int)
    requires FirstFailure(env, history + sofar, calls, k, err)
    ensures !AllZero(env, history, sofar + calls + more)
  {
    var all, i := sofar + calls + more, |sofar| + k - 1;
    assert all[i] == calls[k - 1] && history + all[..i] == (history + sofar) + calls[..k - 1];
  }

  lemma CutShort(env: Env, up: bool, from: int, to: int, last: Option<Node>)
    requires InRange(env, up, from, to) && Partial(env, up, from, last) && from != to && last.Some?
    ensures var next, s := if up then from + 1 else from - 1, if up then from + 1 else from;
            ForwardFrom(env, up, from, to, last) == Attempts(env, up, s, last) + Forward(env, up, next, to)
  {
    hide Forward, Attempts;
  }

  lemma NothingCut(env: Env, up: bool, from: int, at: int)
    requires InRange(env, up, from, at)
    ensures Partial(env, up, from, None) && ForwardFrom(env, up, from, at, None) == Forward(env, up, from, at)
  {
  }

  lemma ForwardFromSplit(env: Env, up: bool, from: int, mid: int, to: int, last: Option<Node>)
    requires InRange(env, up, from, mid) && InRange(env, up, mid, to) && Partial(env, up, from, last)
    requires from != mid
    ensures InRange(env, up, from, to)
    ensures ForwardFrom(env, up, from, to, last) == ForwardFrom(env, up, from, mid, last) + Forward(env, up, mid, to)
  {
    hide Forward, Attempts, ForwardFrom;
    if last.None? {
      NothingCut(env, up, from, mid);
      NothingCut(env, up, from, to);
      ForwardSplit(env, up, from, mid, to);
    } else {
      CutShort(env, up, from, mid, last);
      CutShort(env, up, from, to, last);
      ForwardSplit(env, up, if up then from + 1 else from - 1, mid, to);
    }
  }

  /** A callback of the AP thread that failed. */
  lemma RanBadly(env: Env, up: bool, s: int, last1: Option<Node>, trace1: seq<Call>, fail0: int,
                 ret: int, k: nat, last: Option<Node>, trace: seq<Call>, fail: int)
    requires Known(env, s) && !Empty(env, up, s) && ret != 0
    requires RanOnThread(env, up, s, last1, trace1, fail0, ret, k, last, trace, fail)
    ensures k <= |Attempts(env, up, s, last1)| <= |CallsOf(env, up, s)|
    ensures if fail0 == s then k == 0 && ret == -EAGAIN && fail == CPUHP_INVALID && trace == trace1 && last == last1
            else && k > 0 && fail == fail0 && FirstFailure(env, trace1, Attempts(env, up, s, last1), k, ret)
                 && trace == trace1 + Attempts(env, up, s, last1)[..k]
                 && last == if env.steps[s].multi then Attempts(env, up, s, last1)[k - 1].node else last1
  {
    var calls := Attempts(env, up, s, last1);
    if !env.steps[s].multi && fail0 != s {
      assert trace1 + calls[..0] == trace1 && calls[..1] == calls;
    }
  }

  /** Where an injected failure of step s shows. */
  lemma KickInjected(env: Env, up: bool, from: int, at: int, s: int, to: int, last0: Option<Node>, trace0: seq<Call>,
                     fail0: int, ret: int, k: nat, last1: Option<Node>, trace1: seq<Call>, fail: int)
    requires InRange(env, up, from, at) && Skipped(env, up, at, Before(up, s)) && Partial(env, up, from, last0)
    requires Known(env, s) && !Empty(env, up, s) && InRange(env, up, After(up, s), to) && ret != 0
    requires InRange(env, up, Before(up, s), After(up, s)) && InRange(env, up, from, to)
    requires Underway(env, up, from, at, last0, trace0, fail0, last1, trace1)
    requires if fail0 == s then k == 0 && ret == -EAGAIN && fail == CPUHP_INVALID else k > 0 && fail == fail0
    ensures Injected(env, up, from, to, fail0, ret, s, k, fail)
  {
    hide Forward, ForwardFrom, Skipped, AllZero;
    WalkOneMore(env, up, from, at, s);
  }

  /** Without *lastp from before, the failing walk is that of the direct loop. */
  lemma KickFailsWhole(env: Env, up: bool, from: int, at: int, s: int, to: int, trace0: seq<Call>,
                       ret: int, k: nat, trace1: seq<Call>, trace: seq<Call>)
    requires InRange(env, up, from, at) && Skipped(env, up, at, Before(up, s)) && InRange(env, up, from, to)
    requires Known(env, s) && !Empty(env, up, s) && InRange(env, up, After(up, s), to) && ret != 0
    requires InRange(env, up, Before(up, s), After(up, s))
    requires k <= |CallsOf(env, up, s)| && trace == trace1 + CallsOf(env, up, s)[..k]
    requires trace1 == trace0 + Forward(env, up, from, at) && AllZero(env, trace0, Forward(env, up, from, at))
    requires k > 0 ==> FirstFailure(env, trace1, CallsOf(env, up, s), k, ret)
    ensures Walked(env, up, from, to, trace0, ret, s, k, After(up, s), trace)
  {
    hide Forward, Skipped, AllZero, Passes, CallsOf, FirstFailure;
    WalkOneMore(env, up, from, at, s);
    var pre, part := Forward(env, up, from, at), CallsOf(env, up, s)[..k];
    assert trace0 + pre + part == trace0 + (pre + part);
  }

  lemma KickFails(env: Env, up: bool, from: int, at: int, s: int, to: int, last0: Option<Node>, trace0: seq<Call>,
                  fail0: int, ret: int, k: nat, last1: Option<Node>, trace1: seq<Call>,
                  last: Option<Node>, trace: seq<Call>, fail: int)
    requires InRange(env, up, from, at) && Skipped(env, up, at, Before(up, s)) && Partial(env, up, from, last0)
    requires Known(env, s) && !Empty(env, up, s) && InRange(env, up, After(up, s), to) && ret != 0
    requires InRange(env, up, Before(up, s), After(up, s)) && InRange(env, up, from, to)
    requires Underway(env, up, from, at, last0, trace0, fail0, last1, trace1)
    requires RanOnThread(env, up, s, last1, trace1, fail0, ret, k, last, trace, fail)
    ensures KickWalked(env, up, from, to, last0, trace0, ret, s, k, After(up, s), last, trace)
    ensures Injected(env, up, from, to, fail0, ret, s, k, fail)
  {
    hide Forward, ForwardFrom, Attempts, Skipped, AllZero, Passes, CallsOf, Injected, RanOnThread, FirstFailure, Partial;
    RanBadly(env, up, s, last1, trace1, fail0, ret, k, last, trace, fail);
    KickInjected(env, up, from, at, s, to, last0, trace0, fail0, ret, k, last1, trace1, fail);
    WalkOneMore(env, up, from, at, s);
    KickReaches(env, up, from, at, s, last0, last1);
    if at == from { NothingYet(env, up, from, last0, fail0); }
    var sofar, calls := ForwardFrom(env, up, from, at, last0), Attempts(env, up, s, last1);
    assert trace1 == trace0 + sofar;
    if k > 0 {
      ForwardFromSplit(env, up, from, After(up, s), to, last0);
      NotThrough(env, trace0, sofar, calls, Forward(env, up, After(up, s), to), k, ret);
    }
    if last0.None? {
      AttemptsAll(env, up, s);
      NothingCut(env, up, from, at);
      KickFailsWhole(env, up, from, at, s, to, trace0, ret, k, trace1, trace);
    }
  }

  /** Without *lastp from before, a kick is a walk. */
  lemma WholeKick(env: Env, up: bool, from: int, to: int, trace0: seq<Call>,
                  ret: int, s: int, k: nat, state: int, last: Option<Node>, trace: seq<Call>)
    requires InRange(env, up, from, to) && Partial(env, up, from, None)
    requires KickWalked(env, up, from, to, None, trace0, ret, s, k, state, last, trace)
    ensures Walked(env, up, from, to, trace0, ret, s, k, state, trace)
  {
  }

  lemma KickBegins(env: Env, up: bool, from: int, last0: Option<Node>, trace0: seq<Call>, fail0: int)
    requires InRange(env, up, from, from) && Partial(env, up, from, last0)
    ensures Underway(env, up, from, from, last0, trace0, fail0, last0, trace0)
  {
  }

  lemma StepInRange(env: Env, up: bool, at: int, s: int, to: int)
    requires Skipped(env, up, at, Before(up, s)) && Known(env, s) && InRange(env, up, After(up, s), to)
    ensures InRange(env, up, at, After(up, s)) && InRange(env, up, at, to) && at != After(up, s)
  {
  }

  /** The thread finds nothing more to run. */
  lemma KickDone(env: Env, up: bool, from: int, at: int, to: int, last0: Option<Node>, trace0: seq<Call>, fail0: int,
                 last: Option<Node>, trace: seq<Call>, s: int, k: nat)
    requires InRange(env, up, from, at) && Skipped(env, up, at, to) && Partial(env, up, from, last0) && from != to
    requires InRange(env, up, from, to) && Underway(env, up, from, at, last0, trace0, fail0, last, trace)
    ensures KickWalked(env, up, from, to, last0, trace0, 0, s, k, to, last, trace)
    ensures Injected(env, up, from, to, fail0, 0, s, k, fail0)
  {
    KickEnds(env, up, from, at, to, last0);
  }

  /** The state from which the second kick starts, and that nothing injected waits on its way. */
  lemma UndoStart(env: Env, up: bool, prev: int, to: int, fail0: int, ret: int, s: int, k: nat,
                  last: Option<Node>, fail: int, from: int)
    requires WellFormed(env) && InRange(env, up, prev, to) && ret != 0
    requires FailedAt(env, up, prev, to, s, k) && Paired(env, s)
    requires last == if k > 0 && env.steps[s].multi then CallsOf(env, up, s)[k - 1].node else None
    requires from == if last.Some? then After(up, s) else Before(up, s)
    requires Injected(env, up, prev, to, fail0, ret, s, k, fail)
    requires k > 0 ==> !Passes(env, !up, Before(up, s), prev, fail0)
    ensures InRange(env, !up, from, prev) && Partial(env, !up, from, last)
    ensures ForwardFrom(env, !up, from, prev, last) == UndoCalls(env, up, prev, s, k)
    ensures !Passes(env, !up, from, prev, fail)
  {
    hide Forward, ForwardFrom, CallsOf, UndoPartial;
    UndoKick(env, up, prev, to, fail0, ret, s, k, last, fail, from);
  }

  /** Whether the second kick has any way to go. */
  lemma UndoWhere(env: Env, up: bool, prev: int, to: int, s: int, k: nat, last: Option<Node>, from: int)
    requires InRange(env, up, prev, to) && FailedAt(env, up, prev, to, s, k)
    requires last == if k > 0 && env.steps[s].multi then CallsOf(env, up, s)[k - 1].node else None
    requires from == if last.Some? then After(up, s) else Before(up, s)
    ensures InRange(env, !up, from, prev) && (from == prev <==> NothingPassed(env, up, prev, s, k))
  {
  }

  lemma UndoNothing(env: Env, up: bool, prev: int, to: int, s: int, k: nat, last: Option<Node>, from: int)
    requires InRange(env, up, prev, to) && FailedAt(env, up, prev, to, s, k)
    requires last == if k > 0 && env.steps[s].multi then CallsOf(env, up, s)[k - 1].node else None
    requires from == (if last.Some? then After(up, s) else Before(up, s)) && from == prev
    ensures UndoCalls(env, up, prev, s, k) == []
  {
  }

  lemma UndoArrives(env: Env, up: bool, from: int, to: int, last0: Option<Node>, trace0: seq<Call>,
                    s: int, k: nat, state: int, last: Option<Node>, trace: seq<Call>)
    requires InRange(env, up, from, to) && Partial(env, up, from, last0)
    requires KickWalked(env, up, from, to, last0, trace0, 0, s, k, state, last, trace)
    ensures state == to && trace == trace0 + ForwardFrom(env, up, from, to, last0)
  {
  }
}
