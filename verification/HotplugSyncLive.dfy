/**
 That the handshake of kernel/cpu.c gets done: from which states a CPU can still be brought up and taken down again, and the
 one state from which it cannot.
 */
module HotplugSyncLive {
  import opened Wrappers
  import opened HotplugSync

  /** The steps from a state on. */
  function Follow(s: State, run: seq<Action>): Option<State>
    decreases |run|
  {
    if run == [] then Some(s)
    else
      var t := Tick(Next(s, run[0]));
      if t.None? then None else Follow(t.value, run[1..])
  }

  lemma {:induction false} FollowConcat(s: State, a: seq<Action>, b: seq<Action>)
    requires Follow(s, a).Some?
    ensures Follow(s, a + b) == Follow(Follow(s, a).value, b)
    decreases |a|
  {
    if a == [] {
      assert a + b == b;
    } else {
      assert (a + b)[1..] == a[1..] + b;
      FollowConcat(Tick(Next(s, a[0])).value, a[1..], b);
    }
  }

  lemma {:induction false} NeverAgain(run: seq<Action>, more: seq<Action>)
    requires Exec(run).None?
    ensures Exec(run + more).None?
    decreases |more|
  {
    if more == [] {
      assert run + more == run;
    } else {
      var init := more[..|more| - 1];
      NeverAgain(run, init);
      assert (run + more)[..|run + more| - 1] == run + init;
    }
  }

  lemma {:induction false} ExecFollow(run: seq<Action>, more: seq<Action>)
    requires Exec(run).Some?
    ensures Exec(run + more) == Follow(Exec(run).value, more)
    decreases |more|
  {
    if more == [] {
      assert run + more == run;
    } else {
      var next := run + [more[0]];
      assert next[..|run|] == run && next[|run|] == more[0];
      assert Exec(next) == Tick(Next(Exec(run).value, more[0]));
      assert run + more == next + more[1..];
      if Exec(next).Some? {
        ExecFollow(next, more[1..]);
      } else {
        NeverAgain(next, more[1..]);
      }
    }
  }

  /**
   The AP was restarted after it had reported ALIVE and before the BP saw that report: the BP released a CPU that is booting
   again and waits for it to come online, while the AP reports ALIVE once more and waits to be released.
   */
  predicate Stuck(s: State) {
    s.bp == WaitOnline && (s.ap == ApBooting || (s.ap == ApWaiting && s.sync == ALIVE))
  }

  lemma StuckStays(s: State, a: Action)
    requires Stuck(s) && Next(s, a).Some?
    ensures Stuck(Next(s, a).value)
  {
  }

  lemma {:induction false} StuckForGood(s: State, more: seq<Action>)
    requires Stuck(s) && Follow(s, more).Some?
    ensures Stuck(Follow(s, more).value)
    decreases |more|
  {
    if more != [] {
      StuckStays(s, more[0]);
      StuckForGood(Tick(Next(s, more[0])).value, more[1..]);
    }
  }

  /** A step on the way up. */
  function Toward(s: State): Action {
    match s.bp
    case Idle => if s.ap == ApDying then ApReportDead else BpReadBoot
    case CanBoot(seen) =>
      if s.ap == ApDying then ApReportDead
      else if seen == DEAD || seen == KICKED || seen == ALIVE then BpCasKicked else BpRefuse
    case Kick => BpKick(true)
    case AliveWait(seen) =>
      if s.ap == ApBooting then ApReportAlive
      else if seen == ALIVE then BpCasShouldOnline
      else if s.sync == ALIVE then BpReadAlive
      else BpAliveTimeout
    case WaitOnline => if s.ap == ApWaiting then ApLeaveWait else if s.ap == ApStarting then ApReportOnline else BpSawOnline
    case Up => BpTakedown
    case Stopped => BpReadMark
    case DeadMark(seen) => if seen == DEAD then BpSawDead else BpCasShouldDie
    case DeadWait(seen) => if seen == DEAD then BpCasDead else BpDeadTimeout
    case Cleanup => BpCleanup
  }

  /** How many such steps there are at most. */
  function Distance(s: State): nat {
    match s.bp
    case Up => 0
    case WaitOnline => if s.ap == ApUp then 1 else if s.ap == ApStarting then 2 else 3
    case AliveWait(seen) =>
      if s.ap == ApBooting then 6
      else if s.sync == ALIVE then if seen == ALIVE then 4 else 5
      else if seen == ALIVE then 11 else 10
    case Kick => 7
    case CanBoot(seen) =>
      if s.ap == ApDying then 11
      else if seen == s.sync then 8 else if seen == DEAD || seen == KICKED || seen == ALIVE then 9 else 10
    case Idle => if s.ap == ApDying then 11 else 9
    case Cleanup => 12
    case DeadWait(_) => 13
    case DeadMark(seen) => if seen == s.sync then 14 else 15
    case Stopped => 16
  }

  lemma BootStep(s: State)
    requires Inv(s) && (s.bp == Idle || s.bp.CanBoot? || s.bp == Kick)
    ensures var t := Tick(Next(s, Toward(s))); t.Some? && !Stuck(t.value) && Distance(t.value) < Distance(s)
  {
  }

  lemma AliveStep(s: State)
    requires Inv(s) && !Stuck(s) && (s.bp.AliveWait? || s.bp == WaitOnline)
    ensures var t := Tick(Next(s, Toward(s))); t.Some? && !Stuck(t.value) && Distance(t.value) < Distance(s)
  {
  }

  lemma DownStep(s: State)
    requires Inv(s) && (s.bp == Stopped || s.bp.DeadMark? || s.bp.DeadWait? || s.bp == Cleanup)
    ensures var t := Tick(Next(s, Toward(s))); t.Some? && !Stuck(t.value) && Distance(t.value) < Distance(s)
  {
  }

  lemma {:induction false} ComesUp(s: State) returns (more: seq<Action>, t: State)
    requires Inv(s) && !Stuck(s)
    ensures Follow(s, more) == Some(t) && Inv(t) && t.bp == Up && t.ap == ApUp && |more| <= Distance(s)
    decreases Distance(s)
  {
    if s.bp == Up {
      return [], s;
    }
    hide Next, Toward, Distance;
    if s.bp == Idle || s.bp.CanBoot? || s.bp == Kick { BootStep(s); }
    else if s.bp.AliveWait? || s.bp == WaitOnline { AliveStep(s); }
    else { DownStep(s); }
    StepKeeps(s, Toward(s));
    var rest;
    rest, t := ComesUp(Tick(Next(s, Toward(s))).value);
    more := [Toward(s)] + rest;
    assert more[1..] == rest;
  }

  /** From a reachable state the CPU can still come online, within sixteen steps, exactly if it is not stuck. */
  lemma BootsExactly(run: seq<Action>) returns (more: seq<Action>)
    requires Exec(run).Some?
    ensures !Stuck(Exec(run).value) ==>
              |more| <= 16 && Exec(run + more).Some? && Exec(run + more).value.bp == Up && Exec(run + more).value.ap == ApUp
    ensures Stuck(Exec(run).value) ==>
              forall any: seq<Action> | Exec(run + any).Some? :: Exec(run + any).value.bp == WaitOnline && Exec(run + any).value.ap != ApUp
  {
    hide Exec, Follow, Inv;
    var s := Exec(run).value;
    more := [];
    if !Stuck(s) {
      RunInv(run);
      var t;
      more, t := ComesUp(s);
      ExecFollow(run, more);
    } else {
      forall any: seq<Action> | Exec(run + any).Some?
        ensures Exec(run + any).value.bp == WaitOnline && Exec(run + any).value.ap != ApUp
      {
        ExecFollow(run, any);
        StuckForGood(s, any);
      }
    }
  }

  predicate InTakedown(s: State) {
    s.bp == Up || s.bp == Stopped || s.bp.DeadMark? || s.bp.DeadWait? || s.bp == Cleanup
  }

  /** A step on the way down. */
  function Away(s: State): Action
    requires InTakedown(s)
  {
    match s.bp
    case Up => BpTakedown
    case Stopped => BpReadMark
    case DeadMark(seen) => if seen == DEAD then BpSawDead else BpCasShouldDie
    case DeadWait(seen) => if seen == DEAD then BpCasDead else if s.ap == ApDying then ApReportDead else BpReadDead
    case Cleanup => BpCleanup
  }

  function DistanceDown(s: State): nat
    requires InTakedown(s)
  {
    match s.bp
    case Up => 8
    case Stopped => 7
    case DeadMark(seen) => if seen == s.sync then 5 else 6
    case DeadWait(seen) => if seen == DEAD then 2 else if s.ap == ApDying then 4 else 3
    case Cleanup => 1
  }

  lemma AwayStep(s: State)
    requires Inv(s) && InTakedown(s)
    ensures var t := Tick(Next(s, Away(s)));
            t.Some? && if s.bp == Cleanup then t.value.bp == Idle && t.value.sync == DEAD && t.value.ap == ApOff
                       else InTakedown(t.value) && DistanceDown(t.value) < DistanceDown(s)
  {
  }

  lemma OneOn(s: State, run: seq<Action>)
    requires run != [] && Next(s, run[0]).Some?
    ensures Follow(s, run) == Follow(Tick(Next(s, run[0])).value, run[1..])
  {
  }

  lemma {:induction false} Dies(s: State) returns (more: seq<Action>, t: State)
    requires Inv(s) && InTakedown(s)
    ensures Follow(s, more) == Some(t) && t.bp == Idle && t.sync == DEAD && t.ap == ApOff
    ensures 0 < |more| <= DistanceDown(s) && more[|more| - 1] == BpCleanup
    decreases DistanceDown(s)
  {
    AwayStep(s);
    StepKeeps(s, Away(s));
    t := Tick(Next(s, Away(s))).value;
    if s.bp == Cleanup {
      more := [BpCleanup];
    } else {
      hide Next, Away, Inv, Follow;
      var rest;
      var u := t;
      rest, t := Dies(u);
      more := [Away(s)] + rest;
      assert more[1..] == rest;
      assert Follow(s, more) == Follow(u, rest) by { OneOn(s, more); }
    }
  }

  /** From every moment of a takedown, whichever side is ahead, the dead-CPU cleanup can still be reached in eight steps. */
  lemma TakedownCompletes(run: seq<Action>) returns (more: seq<Action>)
    requires Exec(run).Some? && InTakedown(Exec(run).value)
    ensures 0 < |more| <= 8 && more[|more| - 1] == BpCleanup && Exec(run + more).Some?
    ensures var t := Exec(run + more).value; t.bp == Idle && t.sync == DEAD && t.ap == ApOff
  {
    hide Exec, Follow, Inv;
    RunInv(run);
    var t;
    more, t := Dies(Exec(run).value);
    ExecFollow(run, more);
  }

  /** The second attempt to boot a slow AP restarts it between its report and the BP's look at the word. */
  const HANGS: seq<Action> := [
    BpReadBoot, BpCasKicked, BpKick(true), BpAliveTimeout,
    BpReadBoot, BpCasKicked, ApReportAlive, BpKick(true), BpReadAlive, BpCasShouldOnline]

  lemma FirstTwo(s: State)
    requires s.bp == Idle && (s.sync == DEAD || s.sync == KICKED)
    ensures Follow(s, [BpReadBoot, BpCasKicked]) == Some(s.(sync := KICKED, bp := Kick, now := s.now + 2))
  {
    OneOn(s, [BpReadBoot, BpCasKicked]);
    assert [BpReadBoot, BpCasKicked][1..] == [BpCasKicked];
  }

  lemma KickThenTimeout(s: State)
    requires s.bp == Kick && s.ap == ApOff
    ensures Follow(s, [BpKick(true), BpAliveTimeout]) == Some(s.(bp := Idle, ap := ApBooting, now := s.now + 2))
  {
    OneOn(s, [BpKick(true), BpAliveTimeout]);
    assert [BpKick(true), BpAliveTimeout][1..] == [BpAliveTimeout];
  }

  lemma LastFour(s: State)
    requires s.bp == Kick && s.ap == ApBooting
    ensures var t := Follow(s, [ApReportAlive, BpKick(true), BpReadAlive, BpCasShouldOnline]); t.Some? && Stuck(t.value)
  {
    var r := [ApReportAlive, BpKick(true), BpReadAlive, BpCasShouldOnline];
    OneOn(s, r);
    var a := Tick(Next(s, r[0])).value;
    assert r[1..] == [BpKick(true), BpReadAlive, BpCasShouldOnline];
    OneOn(a, r[1..]);
    var b := Tick(Next(a, r[1])).value;
    assert r[1..][1..] == [BpReadAlive, BpCasShouldOnline];
    OneOn(b, [BpReadAlive, BpCasShouldOnline]);
    assert [BpReadAlive, BpCasShouldOnline][1..] == [BpCasShouldOnline];
  }

  lemma Nothing()
    ensures Exec([]) == Some(Init)
  {
  }

  lemma HangExample()
    ensures Exec(HANGS).Some? && Stuck(Exec(HANGS).value)
  {
    hide Exec, Follow, Next;
    var begin, again := [BpReadBoot, BpCasKicked], [BpKick(true), BpAliveTimeout];
    var last := [ApReportAlive, BpKick(true), BpReadAlive, BpCasShouldOnline];
    FirstTwo(Init);
    var s1 := Init.(sync := KICKED, bp := Kick, now := 2);
    KickThenTimeout(s1);
    var s2 := s1.(bp := Idle, ap := ApBooting, now := 4);
    FirstTwo(s2);
    var s3 := s2.(sync := KICKED, bp := Kick, now := 6);
    LastFour(s3);
    FollowConcat(Init, begin, again);
    FollowConcat(Init, begin + again, begin);
    FollowConcat(Init, begin + again + begin, last);
    assert HANGS == begin + again + begin + last;
    assert Exec([]) == Some(Init) by { Nothing(); }
    ExecFollow([], HANGS);
    assert [] + HANGS == HANGS;
  }
}
