/**
 Where every record of kernel/audit.c ends up: which are delivered, which wait in which queue and in what order, and which are
 lost, for each of the three queues and for a whole pass of kauditd_thread.
 */
module KauditdPlaces {
  import opened Kauditd

  /** How many of n records find room behind `len` others. */
  function Fits(cfg: Config, len: nat, n: nat): (k: nat)
    ensures k <= n
  {
    if cfg.backlogLimit == 0 || len + n <= cfg.backlogLimit then n
    else if len <= cfg.backlogLimit then cfg.backlogLimit - len
    else 0
  }

  /** A list of records goes behind the hold queue as far as there is room, or is dropped without audit_default. */
  function Held(cfg: Config, s: State, list: seq<Record>): State {
    if !cfg.auditDefault then s.(silent := s.silent + list)
    else
      var k := Fits(cfg, |s.hold|, |list|);
      s.(hold := s.hold + list[..k], lost := s.lost + list[k..])
  }

  /** A list of records goes behind the retry queue as far as there is room. */
  function Retried(cfg: Config, s: State, list: seq<Record>): State {
    var k := Fits(cfg, |s.retry|, |list|);
    s.(retry := s.retry + list[..k], lost := s.lost + list[k..])
  }

  /** The first k records of a queue are delivered. */
  function Delivered(s: State, list: seq<Record>, k: nat, sends: nat): State
    requires k <= |list|
  {
    s.(delivered := s.delivered + list[..k], sends := sends)
  }

  // One record after the other.

  lemma HeldFirst(cfg: Config, s: State, list: seq<Record>)
    requires list != []
    ensures Held(cfg, s, list) == Held(cfg, Held(cfg, s, [list[0]]), list[1..])
  {
    var r, rest := list[0], list[1..];
    var k := Fits(cfg, |s.hold|, |list|);
    assert s.silent + list == s.silent + [r] + rest;
    if k > 0 {
      assert [r][..1] == [r] && [r][1..] == [];
      assert list[..k] == [r] + rest[..k - 1] && list[k..] == rest[k - 1..];
      assert s.hold + list[..k] == s.hold + [r] + rest[..k - 1];
    } else {
      assert [r][..0] == [] && [r][0..] == [r] && list[..0] == [] && list[0..] == [r] + rest && rest[..0] == [] && rest[0..] == rest;
      assert s.lost + list == s.lost + [r] + rest;
    }
  }

  lemma RetriedFirst(cfg: Config, s: State, list: seq<Record>)
    requires list != []
    ensures Retried(cfg, s, list) == Retried(cfg, Retried(cfg, s, [list[0]]), list[1..])
  {
    var r, rest := list[0], list[1..];
    var k := Fits(cfg, |s.retry|, |list|);
    if k > 0 {
      assert [r][..1] == [r] && [r][1..] == [];
      assert list[..k] == [r] + rest[..k - 1] && list[k..] == rest[k - 1..];
      assert s.retry + list[..k] == s.retry + [r] + rest[..k - 1];
    } else {
      assert [r][..0] == [] && [r][0..] == [r] && list[..0] == [] && list[0..] == [r] + rest && rest[..0] == [] && rest[0..] == rest;
      assert s.lost + list == s.lost + [r] + rest;
    }
  }

  lemma NoneLeft(cfg: Config, s: State)
    ensures Held(cfg, s, []) == s && Retried(cfg, s, []) == s
  {
    assert s.silent + [] == s.silent && s.hold + [] == s.hold && s.lost + [] == s.lost && s.retry + [] == s.retry;
  }

  /** What each hook does with one record. */
  lemma HookPlaces(cfg: Config, s: State, h: Hook, r: Record, error: int)
    ensures OnError(cfg, s, h, r, error)
         == match h
            case ReholdSkb => s.(hold := s.hold + [r])
            case HoldSkb => if error == -11 && cfg.auditDefault then Retried(cfg, s, [r]) else Held(cfg, s, [r])
            case RetrySkb => Retried(cfg, s, [r])
  {
    assert [r][..1] == [r] && [r][1..] == [] && [r][..0] == [] && [r][0..] == [r];
    assert s.hold + [] == s.hold && s.lost + [] == s.lost && s.retry + [] == s.retry;
  }

  /** What goes behind the hold queue leaves the other fields alone, and does not depend on them. */
  lemma HeldKeeps(cfg: Config, s: State, list: seq<Record>)
    ensures var t := Held(cfg, s, list);
            t == s.(hold := t.hold, lost := t.lost, silent := t.silent) && s.hold <= t.hold
  {
  }

  lemma HeldElsewhere(cfg: Config, s: State, t: State, list: seq<Record>)
    requires t == s.(main := t.main, retry := t.retry, delivered := t.delivered, multicast := t.multicast, sends := t.sends)
    ensures var u := Held(cfg, s, list);
            Held(cfg, t, list) == t.(hold := u.hold, lost := u.lost, silent := u.silent)
  {
  }

  lemma {:induction false} MainHeld(cfg: Config, s: State, n: nat)
    requires n <= |s.main|
    ensures FailAll(cfg, s, Main, HoldSkb, n, -ECONNREFUSED, true)
         == Held(cfg, s.(main := s.main[n..], multicast := s.multicast + s.main[..n]), s.main[..n])
    decreases n
  {
    hide OnError, Held;
    if n == 0 {
      assert s.main[0..] == s.main && s.main[..0] == [] && s.multicast + [] == s.multicast;
      NoneLeft(cfg, s);
    } else {
      var r, u := s.main[0], s.(main := s.main[1..], multicast := s.multicast + [s.main[0]]);
      var t := FailFirst(cfg, s, Main, HoldSkb, -ECONNREFUSED, true);
      HookPlaces(cfg, u, HoldSkb, r, -ECONNREFUSED);
      HeldKeeps(cfg, u, [r]);
      MainHeld(cfg, t, n - 1);
      var v := s.(main := s.main[n..], multicast := s.multicast + s.main[..n]);
      assert s.main[..n][0] == r && s.main[..n][1..] == t.main[..n - 1] && t.main[n - 1..] == s.main[n..];
      assert s.multicast + [r] + t.main[..n - 1] == s.multicast + s.main[..n];
      HeldFirst(cfg, v, s.main[..n]);
      HeldElsewhere(cfg, u, v, [r]);
    }
  }

  lemma RetriedKeeps(cfg: Config, s: State, list: seq<Record>)
    ensures var t := Retried(cfg, s, list);
            t == s.(retry := t.retry, lost := t.lost) && s.retry <= t.retry
  {
  }

  lemma RetriedElsewhere(cfg: Config, s: State, t: State, list: seq<Record>)
    requires t == s.(main := t.main, hold := t.hold, delivered := t.delivered, multicast := t.multicast, sends := t.sends)
    ensures var u := Retried(cfg, s, list);
            Retried(cfg, t, list) == t.(retry := u.retry, lost := u.lost)
  {
  }

  lemma {:induction false} MainRetried(cfg: Config, s: State, n: nat, error: int)
    requires n <= |s.main|
    ensures FailAll(cfg, s, Main, RetrySkb, n, error, true)
         == Retried(cfg, s.(main := s.main[n..], multicast := s.multicast + s.main[..n]), s.main[..n])
    decreases n
  {
    hide OnError, Retried;
    if n == 0 {
      assert s.main[0..] == s.main && s.main[..0] == [] && s.multicast + [] == s.multicast;
      NoneLeft(cfg, s);
    } else {
      var r, u := s.main[0], s.(main := s.main[1..], multicast := s.multicast + [s.main[0]]);
      var t := FailFirst(cfg, s, Main, RetrySkb, error, true);
      HookPlaces(cfg, u, RetrySkb, r, error);
      RetriedKeeps(cfg, u, [r]);
      MainRetried(cfg, t, n - 1, -ECONNREFUSED);
      var v := s.(main := s.main[n..], multicast := s.multicast + s.main[..n]);
      assert s.main[..n][0] == r && s.main[..n][1..] == t.main[..n - 1] && t.main[n - 1..] == s.main[n..];
      assert s.multicast + [r] + t.main[..n - 1] == s.multicast + s.main[..n];
      RetriedFirst(cfg, v, s.main[..n]);
      RetriedElsewhere(cfg, u, v, [r]);
    }
  }

  lemma {:induction false} RetryHeld(cfg: Config, s: State, n: nat)
    requires n <= |s.retry|
    ensures FailAll(cfg, s, Retry, HoldSkb, n, -ECONNREFUSED, false) == Held(cfg, s.(retry := s.retry[n..]), s.retry[..n])
    decreases n
  {
    hide OnError, Held;
    if n == 0 {
      assert s.retry[0..] == s.retry && s.retry[..0] == [];
      NoneLeft(cfg, s);
    } else {
      var r, u := s.retry[0], s.(retry := s.retry[1..]);
      var t := FailFirst(cfg, s, Retry, HoldSkb, -ECONNREFUSED, false);
      HookPlaces(cfg, u, HoldSkb, r, -ECONNREFUSED);
      HeldKeeps(cfg, u, [r]);
      RetryHeld(cfg, t, n - 1);
      var v := s.(retry := s.retry[n..]);
      assert s.retry[..n][0] == r && s.retry[..n][1..] == t.retry[..n - 1] && t.retry[n - 1..] == s.retry[n..];
      HeldFirst(cfg, v, s.retry[..n]);
      HeldElsewhere(cfg, u, v, [r]);
    }
  }

  /** auditd_reset puts the retry queue behind the hold queue. */
  lemma {:induction false} FlushPlaces(cfg: Config, s: State)
    ensures FlushRetry(cfg, s) == Held(cfg, s.(retry := []), s.retry)
    decreases |s.retry|
  {
    hide OnError, Held;
    if s.retry == [] {
      NoneLeft(cfg, s);
    } else {
      var r, u := s.retry[0], s.(retry := s.retry[1..]);
      var t := OnError(cfg, u, HoldSkb, r, -ECONNREFUSED);
      HookPlaces(cfg, u, HoldSkb, r, -ECONNREFUSED);
      HeldKeeps(cfg, u, [r]);
      FlushPlaces(cfg, t);
      var v := s.(retry := []);
      HeldFirst(cfg, v, s.retry);
      HeldElsewhere(cfg, u, v, [r]);
    }
  }

  // Sending a list.

  /** Send number at[i] is the first for record i: every record but the last tried got through, and that one was refused. */
  lemma {:induction false} SendRunMeaning(net: nat -> int, n: nat, limit: nat, list: seq<Record>) returns (at: seq<nat>)
    ensures var r := SendRun(net, n, limit, list);
            && |at| == r.sent + 1 && at[0] == n
            && (forall i | 0 <= i < r.sent ::
                  Unicast(net, at[i], 0, limit).0 >= 0 && at[i + 1] == at[i] + Unicast(net, at[i], 0, limit).1)
            && if r.sent == |list| then r.rc == 0 && r.sends == at[r.sent]
               else && r.rc == Unicast(net, at[r.sent], 0, limit).0 < 0
                    && r.sends == at[r.sent] + Unicast(net, at[r.sent], 0, limit).1
    decreases |list|
  {
    hide Unicast;
    at := [n];
    if list != [] && Unicast(net, n, 0, limit).0 >= 0 {
      var rest := SendRunMeaning(net, n + Unicast(net, n, 0, limit).1, limit, list[1..]);
      at := [n] + rest;
    }
  }

  /** An error that breaks the connection. */
  predicate Breaks(rc: int) {
    rc < 0 && rc != -11
  }

  /** The hold queue: what is not delivered stays. */
  lemma HoldPlaces(cfg: Config, s: State)
    ensures var r := SendRun(cfg.net, s.sends, 5, s.hold);
            var t := SendQueue(cfg, s, Hold, |s.hold|, true, 5, ReholdSkb, false);
            && t.0 == Delivered(s.(hold := s.hold[r.sent..]), s.hold, r.sent, r.sends)
            && (t.1 < 0 <==> Breaks(r.rc))
  {
    hide SendRun, FailAll;
    var r := SendRun(cfg.net, s.sends, 5, s.hold);
    var t := Accepted(s, Hold, r.sent, r.sends, false);
    assert s.hold[..|s.hold|] == s.hold;
    if r.rc < 0 {
      Reheld(cfg, t, |t.hold|, r.rc);
      assert t.hold[|t.hold|..] + t.hold[..|t.hold|] == t.hold;
    }
  }

  /** The retry queue: after -EAGAIN its record is tried again later, and the others wait for a new daemon. */
  function AfterRetry(cfg: Config, s: State, r: Sending): State
    requires r.sent <= |s.retry| && (r.rc < 0 <==> r.sent < |s.retry|)
  {
    var t, left := Delivered(s.(retry := []), s.retry, r.sent, r.sends), s.retry[r.sent..];
    if left == [] then t
    else if r.rc == -11 && cfg.auditDefault then
      if Fits(cfg, |left| - 1, 1) == 1 then Held(cfg, t.(retry := [left[0]]), left[1..])
      else Held(cfg, t.(lost := t.lost + [left[0]]), left[1..])
    else Held(cfg, t, left)
  }

  lemma RetryFails(cfg: Config, a: State, error: int)
    requires a.retry != []
    ensures FailAll(cfg, a, Retry, HoldSkb, |a.retry|, error, false)
         == if error == -11 && cfg.auditDefault then
              if Fits(cfg, |a.retry| - 1, 1) == 1 then Held(cfg, a.(retry := [a.retry[0]]), a.retry[1..])
              else Held(cfg, a.(retry := [], lost := a.lost + [a.retry[0]]), a.retry[1..])
            else Held(cfg, a.(retry := []), a.retry)
  {
    hide OnError, Held;
    var x, rest := a.retry[0], a.retry[1..];
    var u := a.(retry := rest);
    var t := FailFirst(cfg, a, Retry, HoldSkb, error, false);
    HookPlaces(cfg, u, HoldSkb, x, error);
    assert [x][..1] == [x] && [x][1..] == [] && [x][..0] == [] && [x][0..] == [x];
    if error == -11 && cfg.auditDefault {
      assert t.retry[..|rest|] == rest;
      RetryHeld(cfg, t, |rest|);
      if Fits(cfg, |rest|, 1) == 1 {
        assert t.retry[|rest|..] == [x] && t.lost == a.lost;
      } else {
        assert t.retry[|rest|..] == [];
      }
    } else {
      HeldKeeps(cfg, u, [x]);
      assert t.retry[..|rest|] == rest && t.retry[|rest|..] == [];
      RetryHeld(cfg, t, |rest|);
      HeldFirst(cfg, a.(retry := []), a.retry);
      HeldElsewhere(cfg, u, a.(retry := []), [x]);
    }
  }

  lemma RetryPlaces(cfg: Config, s: State)
    ensures var r := SendRun(cfg.net, s.sends, 5, s.retry);
            var t := SendQueue(cfg, s, Retry, |s.retry|, true, 5, HoldSkb, false);
            && t.0 == AfterRetry(cfg, s, r)
            && (t.1 < 0 <==> Breaks(r.rc))
  {
    hide SendRun, FailAll, Held, OnError;
    var r := SendRun(cfg.net, s.sends, 5, s.retry);
    var a := Accepted(s, Retry, r.sent, r.sends, false);
    var t, left := Delivered(s.(retry := []), s.retry, r.sent, r.sends), s.retry[r.sent..];
    assert s.retry[..|s.retry|] == s.retry && a == t.(retry := left);
    if r.rc < 0 {
      RetryFails(cfg, a, r.rc);
    }
  }

  /** The main queue, connected: all is multicast, what is not delivered goes behind the retry queue. */
  function AfterMain(cfg: Config, s: State, r: Sending): State
    requires r.sent <= |s.main|
  {
    Retried(cfg, Delivered(s.(main := [], multicast := s.multicast + s.main), s.main, r.sent, r.sends), s.main[r.sent..])
  }

  /** Without a connection all goes behind the hold queue. */
  function MainGone(cfg: Config, s: State): State {
    Held(cfg, s.(main := [], multicast := s.multicast + s.main), s.main)
  }

  lemma MainPlaces(cfg: Config, s: State)
    ensures var r := SendRun(cfg.net, s.sends, 1, s.main);
            var t := MainQueue(cfg, s, true);
            && t.0 == AfterMain(cfg, s, r)
            && (t.1 < 0 <==> Breaks(r.rc))
    ensures MainQueue(cfg, s, false).0 == MainGone(cfg, s)
  {
    hide SendRun, FailAll, Retried, Held;
    assert s.main[..|s.main|] == s.main && s.main[|s.main|..] == [];
    MainHeld(cfg, s, |s.main|);
    var r := SendRun(cfg.net, s.sends, 1, s.main);
    var a, left := Accepted(s, Main, r.sent, r.sends, true), s.main[r.sent..];
    assert a.main == left && left[..|left|] == left && left[|left|..] == [];
    assert s.multicast + s.main[..r.sent] + left == s.multicast + s.main;
    if r.rc < 0 {
      MainRetried(cfg, a, |left|, r.rc);
    } else {
      NoneLeft(cfg, a);
      assert s.main[..r.sent] == s.main;
    }
  }

  // One pass.

  /** The pass of kauditd_thread in terms of whole lists: the new state, and whether the connection is still there. */
  function Told(cfg: Config, s: State, connected: bool): (State, bool) {
    if !connected then (MainGone(cfg, s), false)
    else
      var h := SendRun(cfg.net, s.sends, 5, s.hold);
      var s1 := Delivered(s.(hold := s.hold[h.sent..]), s.hold, h.sent, h.sends);
      if Breaks(h.rc) then (MainGone(cfg, Held(cfg, s1.(retry := []), s1.retry)), false)
      else
        var r := SendRun(cfg.net, s1.sends, 5, s1.retry);
        var s2 := AfterRetry(cfg, s1, r);
        if Breaks(r.rc) then (MainGone(cfg, s2), false)
        else
          var m := SendRun(cfg.net, s2.sends, 1, s2.main);
          var s3 := AfterMain(cfg, s2, m);
          if Breaks(m.rc) then (Held(cfg, s3.(retry := []), s3.retry), false) else (s3, true)
  }

  lemma RetryGone(cfg: Config, s: State)
    ensures var r := SendRun(cfg.net, s.sends, 5, s.retry); Breaks(r.rc) ==> AfterRetry(cfg, s, r).retry == []
  {
    hide SendRun;
  }

  lemma PassMeans(cfg: Config, s: State, connected: bool)
    ensures Pass(cfg, s, connected) == Told(cfg, s, connected)
  {
    hide SendRun, SendQueue, FlushRetry, Held, AfterMain, MainQueue, MainGone;
    MainPlaces(cfg, s);
    if connected {
      HoldPlaces(cfg, s);
      var a := SendQueue(cfg, s, Hold, |s.hold|, true, 5, ReholdSkb, false).0;
      FlushPlaces(cfg, a);
      MainPlaces(cfg, FlushRetry(cfg, a));
      RetryPlaces(cfg, a);
      var b := SendQueue(cfg, a, Retry, |a.retry|, true, 5, HoldSkb, false).0;
      RetryGone(cfg, a);
      FlushPlaces(cfg, b);
      NoneLeft(cfg, b);
      MainPlaces(cfg, FlushRetry(cfg, b));
      MainPlaces(cfg, b);
      FlushPlaces(cfg, MainQueue(cfg, b, true).0);
    }
  }

  /** Nothing is lost without a limit, or while all queues together stay within it. */
  predicate Roomy(cfg: Config, s: State) {
    cfg.backlogLimit == 0 || |s.main| + |s.retry| + |s.hold| <= cfg.backlogLimit
  }

  lemma FailLosesNothing(cfg: Config, s: State, q: Queue, h: Hook, error: int, multicast: bool)
    requires Roomy(cfg, s) && Get(s, q) != []
    ensures var t := FailFirst(cfg, s, q, h, error, multicast); Roomy(cfg, t) && t.lost == s.lost
  {
  }

  lemma QueueLosesNothing(cfg: Config, s: State, q: Queue, up: bool, limit: nat, h: Hook, multicast: bool)
    requires Roomy(cfg, s)
    ensures var t := SendQueue(cfg, s, q, |Get(s, q)|, up, limit, h, multicast).0; Roomy(cfg, t) && t.lost == s.lost
  {
    var lost := s.lost;
    forall t, e | Roomy(cfg, t) && t.lost == lost && Get(t, q) != []
      ensures var u := FailFirst(cfg, t, q, h, e, multicast); Roomy(cfg, u) && u.lost == lost
    {
      FailLosesNothing(cfg, t, q, h, e, multicast);
    }
    hide FailFirst;
    SendQueueBy(cfg, s, q, |Get(s, q)|, up, limit, h, multicast, t => Roomy(cfg, t) && t.lost == lost);
  }

  lemma PassLosesNothing(cfg: Config, s: State, connected: bool)
    requires Roomy(cfg, s)
    ensures Pass(cfg, s, connected).0.lost == s.lost && Roomy(cfg, Pass(cfg, s, connected).0)
  {
    var lost := s.lost;
    var keep := (t: State) => Roomy(cfg, t) && t.lost == lost;
    forall t, q, up, limit, h, m | keep(t) ensures keep(SendQueue(cfg, t, q, |Get(t, q)|, up, limit, h, m).0) {
      QueueLosesNothing(cfg, t, q, up, limit, h, m);
    }
    forall t | keep(t) ensures keep(FlushRetry(cfg, t)) {
      FlushPlaces(cfg, t);
      assert t.lost + [] == t.lost;
    }
    PassBy(cfg, s, connected, keep);
  }
}
