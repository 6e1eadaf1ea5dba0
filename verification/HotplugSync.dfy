/**
 The handshake between the control CPU (BP) and the CPU being brought up or taken down (AP) in
 kernel/cpu.c, over one atomic word. Reads and compare-exchanges are separate steps, every wait may
 time out, and the two sides are interleaved at will.
 */
module HotplugSync {
  import opened Wrappers

  datatype Sync = DEAD | KICKED | SHOULD_DIE | ALIVE | SHOULD_ONLINE | ONLINE

  datatype ApPc = ApOff | ApBooting | ApWaiting | ApStarting | ApUp | ApDying

  datatype BpPc =
    | Idle
    | CanBoot(seen: Sync)      // cpuhp_can_boot_ap has read the word
    | Kick                     // the AP may be kicked now
    | AliveWait(seen: Sync)    // cpuhp_bp_sync_alive
    | WaitOnline               // bringup_wait_for_ap_online
    | Up
    | Stopped                  // the AP is on its way to its dying loop; cpuhp_bp_sync_dead comes next
    | DeadMark(seen: Sync)     // the do-while of cpuhp_bp_sync_dead
    | DeadWait(seen: Sync)     // its wait for the AP's report
    | Cleanup

  datatype Action =
    | BpReadBoot | BpRefuse | BpCasKicked | BpKick(restart: bool)
    | BpReadAlive | BpCasShouldOnline | BpAliveTimeout | BpSawOnline
    | BpTakedown | BpReadMark | BpCasShouldDie | BpSawDead | BpReadDead | BpCasDead | BpDeadTimeout | BpCleanup
    | ApReportAlive | ApLeaveWait | ApReportOnline | ApReportDead

  /** The word, both program counters, and when certain steps last happened. */
  datatype State = State(
    sync: Sync, bp: BpPc, ap: ApPc, now: nat,
    reported: Option<nat>, released: Option<nat>, takedown: Option<nat>, died: Option<nat>)

  const Init: State := State(DEAD, Idle, ApOff, 0, None, None, None, None)

  /** One step of one side; None when the action is not possible in this state. */
  function Next(s: State, a: Action): Option<State> {
    match a
    case BpReadBoot => if s.bp == Idle then Some(s.(bp := CanBoot(s.sync))) else None
    case BpRefuse =>
      if s.bp.CanBoot? && s.bp.seen != DEAD && s.bp.seen != KICKED && s.bp.seen != ALIVE
      then Some(s.(bp := Idle)) else None
    case BpCasKicked =>
      if s.bp.CanBoot? && (s.bp.seen == DEAD || s.bp.seen == KICKED || s.bp.seen == ALIVE) then
        if s.sync == s.bp.seen then Some(s.(sync := KICKED, bp := Kick)) else Some(s.(bp := CanBoot(s.sync)))
      else None
    // The architecture starts the AP; one that is stuck waiting may be restarted or not.
    case BpKick(restart) =>
      if s.bp == Kick
      then Some(s.(bp := AliveWait(KICKED),
                   ap := if s.ap == ApOff || (s.ap == ApWaiting && restart) then ApBooting else s.ap))
      else None
    case BpReadAlive => if s.bp.AliveWait? then Some(s.(bp := AliveWait(s.sync))) else None
    case BpCasShouldOnline =>
      if s.bp.AliveWait? && s.bp.seen == ALIVE then
        if s.sync == ALIVE then Some(s.(sync := SHOULD_ONLINE, bp := WaitOnline, released := Some(s.now)))
        else Some(s.(bp := AliveWait(s.sync)))
      else None
    case BpAliveTimeout => if s.bp.AliveWait? && s.bp.seen != ALIVE then Some(s.(bp := Idle)) else None
    case BpSawOnline => if s.bp == WaitOnline && s.ap == ApUp then Some(s.(bp := Up)) else None
    // Stopping the AP sends it to its dying loop; cpuhp_bp_sync_dead reads the word later.
    case BpTakedown =>
      if s.bp == Up
      then Some(s.(bp := Stopped, ap := if s.ap == ApUp then ApDying else s.ap, takedown := Some(s.now)))
      else None
    case BpReadMark => if s.bp == Stopped then Some(s.(bp := DeadMark(s.sync))) else None
    case BpCasShouldDie =>
      if s.bp.DeadMark? && s.bp.seen != DEAD then
        if s.sync == s.bp.seen then Some(s.(sync := SHOULD_DIE, bp := DeadWait(SHOULD_DIE)))
        else Some(s.(bp := DeadMark(s.sync)))
      else None
    case BpSawDead => if s.bp == DeadMark(DEAD) then Some(s.(bp := DeadWait(DEAD))) else None
    case BpReadDead => if s.bp.DeadWait? then Some(s.(bp := DeadWait(s.sync))) else None
    case BpCasDead =>
      if s.bp == DeadWait(DEAD) then
        if s.sync == DEAD then Some(s.(bp := Cleanup)) else Some(s.(bp := DeadWait(s.sync)))
      else None
    case BpDeadTimeout => if s.bp.DeadWait? && s.bp.seen != DEAD then Some(s.(bp := Idle)) else None
    case BpCleanup => if s.bp == Cleanup then Some(s.(bp := Idle)) else None
    case ApReportAlive =>
      if s.ap == ApBooting then Some(s.(sync := ALIVE, ap := ApWaiting, reported := Some(s.now))) else None
    case ApLeaveWait => if s.ap == ApWaiting && s.sync == SHOULD_ONLINE then Some(s.(ap := ApStarting)) else None
    case ApReportOnline => if s.ap == ApStarting then Some(s.(sync := ONLINE, ap := ApUp)) else None
    case ApReportDead =>
      if s.ap == ApDying then Some(s.(sync := DEAD, ap := ApOff, died := Some(s.now))) else None
  }

  function Tick(s: Option<State>): Option<State> {
    if s.Some? then Some(s.value.(now := s.value.now + 1)) else None
  }

  /** A run: the state after a sequence of actions, if each was possible. */
  function Exec(run: seq<Action>): Option<State> {
    if run == [] then Some(Init)
    else
      var before := Exec(run[..|run| - 1]);
      if before.None? then None else Tick(Next(before.value, run[|run| - 1]))
  }

  ghost predicate Before(a: Option<nat>, b: Option<nat>) {
    a.Some? && b.Some? && a.value < b.value
  }

  /** What the two sides and the word agree on in every reachable state. */
  ghost predicate Inv(s: State) {
    && (s.sync == DEAD ==> s.ap == ApOff)
    && (s.sync == SHOULD_DIE ==> s.ap == ApDying)
    && (s.sync == ONLINE ==> s.ap == ApUp || s.ap == ApDying)
    && (s.sync == SHOULD_ONLINE ==> s.bp == WaitOnline)
    && (s.sync == SHOULD_ONLINE && s.ap == ApWaiting ==> Before(s.reported, s.released))
    && (s.ap == ApBooting ==> s.sync == KICKED || s.sync == ALIVE || s.sync == SHOULD_ONLINE)
    && (s.ap == ApWaiting ==> s.reported.Some? && (s.sync == KICKED || s.sync == ALIVE || s.sync == SHOULD_ONLINE))
    && (s.ap == ApStarting ==> s.sync == SHOULD_ONLINE && Before(s.reported, s.released))
    && (s.ap == ApUp ==> s.sync == ONLINE && (s.bp == WaitOnline || s.bp == Up))
    && (s.ap == ApDying ==> s.sync == ONLINE || s.sync == SHOULD_DIE)
    && (s.sync == ONLINE && s.ap == ApDying ==> s.bp == Stopped || s.bp.DeadMark?)
    && (s.sync == KICKED ==> s.ap == ApOff || s.ap == ApBooting || s.ap == ApWaiting)
    && (s.sync == ALIVE ==> s.ap == ApBooting || s.ap == ApWaiting)
    && (s.bp == Kick || s.bp.AliveWait? ==> s.sync == KICKED || s.sync == ALIVE)
    && (s.bp == Up ==> s.ap == ApUp)
    && (s.bp == WaitOnline ==>
          || s.ap == ApBooting || s.ap == ApStarting || s.ap == ApUp
          || (s.ap == ApWaiting && (s.sync == SHOULD_ONLINE || s.sync == ALIVE)))
    && (s.bp == Stopped || s.bp.DeadMark? || s.bp.DeadWait? ==>
          && s.takedown.Some?
          && (s.ap == ApDying || (s.sync == DEAD && Before(s.takedown, s.died))))
    && (s.bp.DeadMark? || s.bp.DeadWait? ==> (s.bp.seen == DEAD ==> s.sync == DEAD))
    && (s.bp == Cleanup ==> s.sync == DEAD && Before(s.takedown, s.died))
    && (s.reported.Some? ==> s.reported.value < s.now)
    && (s.released.Some? ==> s.released.value < s.now)
    && (s.takedown.Some? ==> s.takedown.value < s.now)
    && (s.died.Some? ==> s.died.value < s.now)
  }

  predicate ByBp(a: Action) {
    !a.ApReportAlive? && !a.ApLeaveWait? && !a.ApReportOnline? && !a.ApReportDead?
  }

  lemma ApBootKeeps(s: State, a: Action)
    requires Inv(s) && Next(s, a).Some? && (a == ApReportAlive || a == ApLeaveWait)
    ensures Inv(Tick(Next(s, a)).value)
  {
  }

  lemma ApReportKeeps(s: State, a: Action)
    requires Inv(s) && Next(s, a).Some? && (a == ApReportOnline || a == ApReportDead)
    ensures Inv(Tick(Next(s, a)).value)
  {
  }

  lemma OutsideKeeps(s: State, bp: BpPc)
    requires Inv(s) && (s.bp == Idle || s.bp.CanBoot?) && (bp == Idle || bp.CanBoot?)
    ensures Inv(s.(bp := bp, now := s.now + 1))
  {
  }

  lemma KickedKeeps(s: State)
    requires Inv(s) && s.bp.CanBoot? && (s.sync == DEAD || s.sync == KICKED || s.sync == ALIVE)
    ensures Inv(s.(sync := KICKED, bp := Kick, now := s.now + 1))
  {
  }

  lemma CanBootKeeps(s: State, a: Action)
    requires Inv(s) && Next(s, a).Some? && ByBp(a) && (s.bp == Idle || s.bp.CanBoot?)
    ensures Inv(Tick(Next(s, a)).value)
  {
    hide Inv;
    var t := Next(s, a).value;
    if t.bp == Kick { KickedKeeps(s); } else { OutsideKeeps(s, t.bp); }
  }

  lemma AliveKeeps(s: State, a: Action)
    requires Inv(s) && Next(s, a).Some? && ByBp(a) && (s.bp == Kick || s.bp.AliveWait?)
    ensures Inv(Tick(Next(s, a)).value)
  {
  }

  lemma OnlineKeeps(s: State, a: Action)
    requires Inv(s) && Next(s, a).Some? && ByBp(a) && (s.bp == WaitOnline || s.bp == Up)
    ensures Inv(Tick(Next(s, a)).value)
  {
  }

  lemma DeadKeeps(s: State, a: Action)
    requires Inv(s) && Next(s, a).Some? && ByBp(a)
    requires s.bp == Stopped || s.bp.DeadMark? || s.bp.DeadWait? || s.bp == Cleanup
    ensures Inv(Tick(Next(s, a)).value)
  {
  }

  /** Every step of either side keeps the agreement. */
  lemma StepKeeps(s: State, a: Action)
    requires Inv(s) && Next(s, a).Some?
    ensures Inv(Tick(Next(s, a)).value)
  {
    hide Inv, Next;
    if !ByBp(a) {
      if a == ApReportAlive || a == ApLeaveWait { ApBootKeeps(s, a); } else { ApReportKeeps(s, a); }
    } else {
      match s.bp
      case Idle => CanBootKeeps(s, a);
      case CanBoot(_) => CanBootKeeps(s, a);
      case Kick => AliveKeeps(s, a);
      case AliveWait(_) => AliveKeeps(s, a);
      case WaitOnline => OnlineKeeps(s, a);
      case Up => OnlineKeeps(s, a);
      case Stopped => DeadKeeps(s, a);
      case DeadMark(_) => DeadKeeps(s, a);
      case DeadWait(_) => DeadKeeps(s, a);
      case Cleanup => DeadKeeps(s, a);
    }
  }

  ghost predicate Last(run: seq<Action>, i: nat, a: Action) {
    && i < |run| && run[i] == a
    && forall k | i < k < |run| :: run[k] != a
  }

  /** Step k is the BP's compare-exchange, and it did change ALIVE to SHOULD_ONLINE. */
  ghost predicate ReleasedAt(run: seq<Action>, k: nat) {
    && k < |run| && run[k] == BpCasShouldOnline
    && Exec(run[..k]).Some? && Exec(run[..k]).value.sync == ALIVE
    && Exec(run[..k + 1]).Some? && Exec(run[..k + 1]).value.sync == SHOULD_ONLINE
  }

  /** The stamps name the last step of their kind in the run. */
  ghost predicate Stamped(run: seq<Action>, s: State) {
    && s.now == |run|
    && (s.reported.Some? ==> Last(run, s.reported.value, ApReportAlive))
    && (s.takedown.Some? ==> Last(run, s.takedown.value, BpTakedown))
    && (s.released.Some? ==> ReleasedAt(run, s.released.value))
    && (s.died.Some? ==> s.died.value < |run| && run[s.died.value] == ApReportDead)
  }

  /** Which stamps one step renews. */
  lemma StampsAfter(s: State, a: Action)
    requires Next(s, a).Some?
    ensures var t := Next(s, a).value;
            && t.now == s.now
            && t.reported == (if a == ApReportAlive then Some(s.now) else s.reported)
            && t.takedown == (if a == BpTakedown then Some(s.now) else s.takedown)
            && t.died == (if a == ApReportDead then Some(s.now) else s.died)
            && (t.released == s.released
                || (t.released == Some(s.now) && a == BpCasShouldOnline && s.sync == ALIVE && t.sync == SHOULD_ONLINE))
  {
  }

  lemma ReleaseStays(run: seq<Action>, k: nat, a: Action)
    requires ReleasedAt(run, k)
    ensures ReleasedAt(run + [a], k)
  {
    assert (run + [a])[..k] == run[..k] && (run + [a])[..k + 1] == run[..k + 1];
  }

  lemma LastStays(run: seq<Action>, i: nat, b: Action, a: Action)
    requires Last(run, i, b) && a != b
    ensures Last(run + [a], i, b)
  {
  }

  lemma LastNew(run: seq<Action>, a: Action)
    ensures Last(run + [a], |run|, a)
  {
  }

  lemma ReleaseNew(run: seq<Action>, a: Action, s: State, t: State)
    requires Exec(run) == Some(s) && Exec(run + [a]) == Some(t)
    requires a == BpCasShouldOnline && s.sync == ALIVE && t.sync == SHOULD_ONLINE
    ensures ReleasedAt(run + [a], |run|)
  {
    var next := run + [a];
    assert next[..|run|] == run && next[..|run| + 1] == next;
  }

  lemma StampStep(run: seq<Action>, a: Action, s: State, t: State)
    requires Exec(run) == Some(s) && Exec(run + [a]) == Some(t) && Stamped(run, s)
    requires t.now == s.now + 1
    requires t.reported == (if a == ApReportAlive then Some(s.now) else s.reported)
    requires t.takedown == (if a == BpTakedown then Some(s.now) else s.takedown)
    requires t.died == (if a == ApReportDead then Some(s.now) else s.died)
    requires t.released == s.released
          || (t.released == Some(s.now) && a == BpCasShouldOnline && s.sync == ALIVE && t.sync == SHOULD_ONLINE)
    ensures Stamped(run + [a], t)
  {
    hide Exec, Last, ReleasedAt;
    LastNew(run, a);
    if a != ApReportAlive && s.reported.Some? { LastStays(run, s.reported.value, ApReportAlive, a); }
    if a != BpTakedown && s.takedown.Some? { LastStays(run, s.takedown.value, BpTakedown, a); }
    if t.released == s.released {
      if s.released.Some? { ReleaseStays(run, s.released.value, a); }
    } else {
      ReleaseNew(run, a, s, t);
    }
  }

  lemma {:induction false} RunInv(run: seq<Action>)
    requires Exec(run).Some?
    ensures Inv(Exec(run).value) && Stamped(run, Exec(run).value)
  {
    if run != [] {
      var before, a := run[..|run| - 1], run[|run| - 1];
      RunInv(before);
      var s := Exec(before).value;
      StepKeeps(s, a);
      StampsAfter(s, a);
      assert before + [a] == run;
      StampStep(before, a, s, Exec(run).value);
    }
  }

  lemma {:induction false} ExecPrefix(run: seq<Action>, i: nat)
    requires Exec(run).Some? && i <= |run|
    ensures Exec(run[..i]).Some?
    ensures i < |run| ==> Exec(run[..i + 1]) == Tick(Next(Exec(run[..i]).value, run[i]))
    decreases |run|
  {
    hide Next;
    if i < |run| {
      if i + 1 < |run| {
        ExecPrefix(run[..|run| - 1], i);
        assert run[..|run| - 1][..i] == run[..i] && run[..|run| - 1][..i + 1] == run[..i + 1];
      } else {
        assert run[..i + 1] == run;
      }
    } else {
      assert run[..i] == run;
    }
  }

  /** The state in which step i of a run was taken. */
  lemma StateAt(run: seq<Action>, i: nat) returns (s: State)
    requires Exec(run).Some? && i < |run|
    ensures Exec(run[..i]) == Some(s) && Inv(s) && Stamped(run[..i], s)
    ensures Next(s, run[i]).Some? && Exec(run[..i + 1]) == Tick(Next(s, run[i]))
  {
    ExecPrefix(run, i);
    ExecPrefix(run, i + 1);
    RunInv(run[..i]);
    s := Exec(run[..i]).value;
  }

  /**
   In every interleaving the AP leaves its alive wait only after the BP changed ALIVE to
   SHOULD_ONLINE, and that change came after the AP's latest report.
   */
  lemma LeavesAfterRelease(run: seq<Action>, i: nat) returns (j: nat, k: nat)
    requires Exec(run).Some? && i < |run| && run[i] == ApLeaveWait
    ensures j < k < i && Last(run[..i], j, ApReportAlive) && ReleasedAt(run[..i], k)
  {
    var s := StateAt(run, i);
    assert s.ap == ApWaiting && s.sync == SHOULD_ONLINE;
    j, k := s.reported.value, s.released.value;
  }

  lemma DeadStays(s: State, a: Action)
    requires Inv(s) && s.sync == DEAD && Next(s, a).Some?
    ensures Next(s, a).value.sync == DEAD || (a == BpCasKicked && Next(s, a).value.sync == KICKED)
  {
  }

  /** Once the AP has reported DEAD, only the next boot attempt replaces that word; SHOULD_DIE never does. */
  lemma DeadIsKept(run: seq<Action>, i: nat) returns (s: State, t: State)
    requires Exec(run).Some? && i < |run|
    ensures Exec(run[..i]) == Some(s) && Exec(run[..i + 1]) == Some(t)
    ensures s.sync == DEAD ==> t.sync == DEAD || (run[i] == BpCasKicked && t.sync == KICKED)
  {
    s := StateAt(run, i);
    t := Tick(Next(s, run[i])).value;
    if s.sync == DEAD { DeadStays(s, run[i]); }
  }

  /** The dead-CPU cleanup runs only after the AP reported DEAD, later than the start of this takedown. */
  lemma CleanupAfterDeath(run: seq<Action>, i: nat) returns (j: nat, k: nat)
    requires Exec(run).Some? && i < |run| && run[i] == BpCleanup
    ensures j < k < i && Last(run[..i], j, BpTakedown) && run[k] == ApReportDead
    ensures Exec(run[..i]).Some? && Exec(run[..i]).value.ap == ApOff
  {
    var s := StateAt(run, i);
    assert s.bp == Cleanup;
    j, k := s.takedown.value, s.died.value;
  }
}
