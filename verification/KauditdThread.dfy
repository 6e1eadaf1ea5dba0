/** kauditd_thread and its helpers as they run: the queues are drained in place. */
module KauditdThread {
  import opened Wrappers
  import opened Kauditd
  import opened KauditdPlaces

  type Failing = (State, nat, int) -> State

  /** What becomes of k records once the socket is given up. */
  ghost function FailWith(cfg: Config, q: Queue, h: Hook, multicast: bool): Failing {
    (t: State, k: nat, e: int) => if k <= |Get(t, q)| then FailAll(cfg, t, q, h, k, e, multicast) else t
  }

  ghost function SendEnd(s: State, q: Queue, n: nat, r: Sending, multicast: bool, fail: Failing): (State, int)
    requires r.sent <= n <= |Get(s, q)|
  {
    var t := Accepted(s, q, r.sent, r.sends, multicast);
    if r.rc >= 0 then (t, 0) else (fail(t, n - r.sent, r.rc), Report(r.rc))
  }

  /** SendQueue with the socket up, for any way of failing. */
  ghost function SendWith(net: nat -> int, s: State, q: Queue, n: nat, limit: nat, multicast: bool, fail: Failing): (State, int)
    requires n <= |Get(s, q)|
  {
    SendEnd(s, q, n, SendRun(net, s.sends, limit, Get(s, q)[..n]), multicast, fail)
  }

  lemma SendQueueIs(cfg: Config, s: State, q: Queue, n: nat, limit: nat, h: Hook, multicast: bool)
    requires n <= |Get(s, q)|
    ensures SendQueue(cfg, s, q, n, true, limit, h, multicast)
            == SendWith(cfg.net, s, q, n, limit, multicast, FailWith(cfg, q, h, multicast))
  {
  }

  lemma WithRun(net: nat -> int, t: State, q: Queue, n: nat, limit: nat, multicast: bool, fail: Failing, r: Sending)
    requires n <= |Get(t, q)| && r == SendRun(net, t.sends, limit, Get(t, q)[..n])
    ensures SendWith(net, t, q, n, limit, multicast, fail) == SendEnd(t, q, n, r, multicast, fail)
  {
  }

  lemma RunStep(net: nat -> int, sends: nat, limit: nat, list: seq<Record>)
    requires list != [] && Unicast(net, sends, 0, limit).0 >= 0
    ensures var r := SendRun(net, sends + Unicast(net, sends, 0, limit).1, limit, list[1..]);
            SendRun(net, sends, limit, list) == r.(sent := r.sent + 1)
  {
  }

  /** One more record is sent. */
  lemma SendOne(net: nat -> int, s: State, t: State, q: Queue, n: nat, limit: nat, multicast: bool, fail: Failing, r: Sending)
    requires 0 < n <= |Get(s, q)| && Unicast(net, s.sends, 0, limit).0 >= 0
    requires Get(t, q) == Get(s, q)[1..] && t.sends == s.sends + Unicast(net, s.sends, 0, limit).1
    requires r == SendRun(net, t.sends, limit, Get(t, q)[..n - 1])
    requires r.sent + 1 <= n && SendEnd(s, q, n, r.(sent := r.sent + 1), multicast, fail) == SendEnd(t, q, n - 1, r, multicast, fail)
    ensures SendWith(net, s, q, n, limit, multicast, fail) == SendWith(net, t, q, n - 1, limit, multicast, fail)
  {
    var list, rest := Get(s, q)[..n], Get(t, q)[..n - 1];
    assert rest == list[1..];
    RunStep(net, s.sends, limit, list);
    assert SendRun(net, t.sends, limit, list[1..]) == r;
    WithRun(net, t, q, n - 1, limit, multicast, fail, r);
    WithRun(net, s, q, n, limit, multicast, fail, r.(sent := r.sent + 1));
  }

  lemma PrefixTwice(a: seq<Record>, list: seq<Record>, k: nat)
    requires 1 + k <= |list|
    ensures a + list[..1] + list[1..][..k] == a + list[..k + 1]
  {
    assert list[..1] + list[1..][..k] == list[..k + 1];
  }

  lemma AcceptTwice(s: State, q: Queue, k: nat, m: nat, sends: nat, multicast: bool)
    requires 1 + k <= |Get(s, q)|
    ensures Accepted(Accepted(s, q, 1, m, multicast), q, k, sends, multicast) == Accepted(s, q, k + 1, sends, multicast)
  {
    var list := Get(s, q);
    var t := Accepted(s, q, 1, m, multicast);
    assert Get(t, q) == list[1..];
    assert list[1..][k..] == list[k + 1..];
    PrefixTwice(s.delivered, list, k);
    PrefixTwice(s.multicast, list, k);
    match q case Main => case Retry => case Hold =>
  }

  lemma EndStep(s: State, t: State, q: Queue, n: nat, r: Sending, multicast: bool, fail: Failing)
    requires r.sent + 1 <= n <= |Get(s, q)| && t == Accepted(s, q, 1, t.sends, multicast) && Get(t, q) == Get(s, q)[1..]
    ensures SendEnd(s, q, n, r.(sent := r.sent + 1), multicast, fail) == SendEnd(t, q, n - 1, r, multicast, fail)
  {
    AcceptTwice(s, q, r.sent, t.sends, r.sends, multicast);
  }

  lemma AcceptNone(s: State, q: Queue, sends: nat, multicast: bool)
    ensures Accepted(s, q, 0, sends, multicast) == s.(sends := sends)
  {
  }

  /** The next record is refused for good. */
  lemma SendNone(net: nat -> int, s: State, q: Queue, n: nat, limit: nat, multicast: bool, fail: Failing)
    requires 0 < n <= |Get(s, q)| && Unicast(net, s.sends, 0, limit).0 < 0
    ensures var u := Unicast(net, s.sends, 0, limit);
            SendWith(net, s, q, n, limit, multicast, fail) == (fail(s.(sends := s.sends + u.1), n, u.0), Report(u.0))
  {
    AcceptNone(s, q, s.sends + Unicast(net, s.sends, 0, limit).1, multicast);
  }

  lemma AcceptOne(s: State, q: Queue, sends: nat, multicast: bool)
    requires Get(s, q) != []
    ensures var r := Get(s, q)[0]; var t := Touch(Set(s, q, Get(s, q)[1..]), r, multicast);
            Accepted(s, q, 1, sends, multicast) == t.(delivered := t.delivered + [r], sends := sends)
    ensures var t := Accepted(s, q, 1, sends, multicast); Get(t, q) == Get(s, q)[1..] && t.sends == sends
  {
    assert Get(s, q)[..1] == [Get(s, q)[0]];
  }

  /** What a whole call comes to, seen when n records are still to be handled. */
  ghost predicate Heading(cfg: Config, s: State, q: Queue, n: int, sk: bool, rc: int, limit: nat, h: Hook, touch: bool, end: (State, int)) {
    && 0 <= n <= |Get(s, q)|
    && if sk then rc >= 0 && end == SendWith(cfg.net, s, q, n, limit, touch, FailWith(cfg, q, h, touch))
       else end == (FailAll(cfg, s, q, h, n, -ECONNREFUSED, touch), if rc >= 0 then 0 else rc)
  }

  lemma HeadingDown(cfg: Config, s: State, q: Queue, n: nat, rc: int, limit: nat, h: Hook, touch: bool, end: (State, int))
    requires 0 < n && Heading(cfg, s, q, n, false, rc, limit, h, touch, end)
    ensures Heading(cfg, FailFirst(cfg, s, q, h, -ECONNREFUSED, touch), q, n - 1, false, rc, limit, h, touch, end)
  {
  }

  lemma HeadingFails(cfg: Config, s: State, q: Queue, n: nat, rc: int, limit: nat, h: Hook, touch: bool, end: (State, int), t: State)
    requires 0 < n && Heading(cfg, s, q, n, true, rc, limit, h, touch, end) && Unicast(cfg.net, s.sends, 0, limit).0 < 0
    requires t == s.(sends := s.sends + Unicast(cfg.net, s.sends, 0, limit).1) && Get(t, q) == Get(s, q)
    ensures var e := Unicast(cfg.net, s.sends, 0, limit).0;
            Heading(cfg, FailFirst(cfg, t, q, h, e, touch), q, n - 1, false, Report(e), limit, h, touch, end)
  {
    SendNone(cfg.net, s, q, n, limit, touch, FailWith(cfg, q, h, touch));
  }

  lemma HeadingSent(cfg: Config, s: State, q: Queue, n: nat, rc: int, limit: nat, h: Hook, touch: bool, end: (State, int), t: State)
    requires 0 < n && Heading(cfg, s, q, n, true, rc, limit, h, touch, end) && Unicast(cfg.net, s.sends, 0, limit).0 >= 0
    requires t == Accepted(s, q, 1, s.sends + Unicast(cfg.net, s.sends, 0, limit).1, touch)
    requires Get(t, q) == Get(s, q)[1..] && t.sends == s.sends + Unicast(cfg.net, s.sends, 0, limit).1
    ensures Heading(cfg, t, q, n - 1, true, Unicast(cfg.net, s.sends, 0, limit).0, limit, h, touch, end)
  {
    var r := SendRun(cfg.net, t.sends, limit, Get(t, q)[..n - 1]);
    EndStep(s, t, q, n, r, touch, FailWith(cfg, q, h, touch));
    SendOne(cfg.net, s, t, q, n, limit, touch, FailWith(cfg, q, h, touch), r);
  }

  /** One turn of the loop, from s to t. */
  ghost predicate Turn(cfg: Config, s: State, q: Queue, sk: bool, rc: int, limit: nat, h: Hook, touch: bool, t: State, sk': bool, rc': int)
    requires Get(s, q) != []
  {
    if !sk then t == FailFirst(cfg, s, q, h, -ECONNREFUSED, touch) && !sk' && rc' == rc
    else
      var u := Unicast(cfg.net, s.sends, 0, limit);
      var tried := s.(sends := s.sends + u.1);
      if u.0 < 0 then Get(tried, q) == Get(s, q) && t == FailFirst(cfg, tried, q, h, u.0, touch) && !sk' && rc' == Report(u.0)
      else t == Accepted(s, q, 1, s.sends + u.1, touch) && sk' && rc' == u.0
  }

  lemma HeadingTurn(cfg: Config, s: State, q: Queue, n: nat, sk: bool, rc: int, limit: nat, h: Hook, touch: bool, end: (State, int),
                    t: State, sk': bool, rc': int)
    requires 0 < n && Heading(cfg, s, q, n, sk, rc, limit, h, touch, end) && Get(s, q) != []
    requires Turn(cfg, s, q, sk, rc, limit, h, touch, t, sk', rc')
    ensures Heading(cfg, t, q, n - 1, sk', rc', limit, h, touch, end)
  {
    hide Heading, FailFirst, Accepted, Unicast, Get;
    if !sk {
      HeadingDown(cfg, s, q, n, rc, limit, h, touch, end);
    } else {
      var u := Unicast(cfg.net, s.sends, 0, limit);
      if u.0 < 0 {
        HeadingFails(cfg, s, q, n, rc, limit, h, touch, end, s.(sends := s.sends + u.1));
      } else {
        AcceptOne(s, q, s.sends + u.1, touch);
        HeadingSent(cfg, s, q, n, rc, limit, h, touch, end, t);
      }
    }
  }

  /** At the start and at the end of the loop. */
  lemma HeadingStart(cfg: Config, s: State, q: Queue, up: bool, limit: nat, h: Hook, touch: bool)
    ensures Heading(cfg, s, q, |Get(s, q)|, up, 0, limit, h, touch, SendQueue(cfg, s, q, |Get(s, q)|, up, limit, h, touch))
  {
    if up { SendQueueIs(cfg, s, q, |Get(s, q)|, limit, h, touch); }
  }

  lemma HeadingEnd(cfg: Config, s: State, q: Queue, sk: bool, rc: int, limit: nat, h: Hook, touch: bool, end: (State, int))
    requires Heading(cfg, s, q, 0, sk, rc, limit, h, touch, end)
    ensures end == (s, if rc > 0 then 0 else rc)
  {
    if sk {
      assert Get(s, q)[..0] == [] && Get(s, q)[0..] == Get(s, q);
      AcceptNone(s, q, s.sends, touch);
    }
  }

  lemma TurnRest(cfg: Config, s: State, q: Queue, sk: bool, rc: int, limit: nat, h: Hook, touch: bool, t: State, sk': bool, rc': int)
    requires Get(s, q) != [] && Turn(cfg, s, q, sk, rc, limit, h, touch, t, sk', rc')
    ensures Get(s, q)[1..] <= Get(t, q)
  {
    if sk { AcceptOne(s, q, s.sends + Unicast(cfg.net, s.sends, 0, limit).1, touch); }
  }

  lemma NextOf(list: seq<Record>, i: nat, before: seq<Record>, after: seq<Record>)
    requires i <= |list| && list[i..] <= before && before != [] && before[1..] <= after
    ensures i < |list| ==> before[0] == list[i] && list[i + 1..] <= after
  {
    if i < |list| { assert list[i..][0] == list[i] && list[i..][1..] == list[i + 1..]; }
  }

  lemma FlushSingle(cfg: Config, s: State)
    requires Single(s)
    ensures Single(FlushRetry(cfg, s))
  {
    forall r ensures Times(FlushRetry(cfg, s), r) <= 1 {
      FlushRetryKeeps(cfg, s, r);
      assert Times(s, r) <= 1;
    }
  }

  lemma NoSocket(cfg: Config, s: State, h: Hook)
    ensures SendQueue(cfg, s, Main, |s.main|, false, 1, h, true).1 == 0
  {
  }

  /** Failing the first record, with the hook run after it was taken off and perhaps after some sends. */
  lemma FailFirstIs(cfg: Config, s: State, q: Queue, h: Hook, error: int, multicast: bool, sends: nat)
    requires Get(s, q) != []
    ensures var r := Get(s, q)[0]; var t := Touch(Set(s, q, Get(s, q)[1..]), r, multicast).(sends := sends);
            Get(s.(sends := sends), q) == Get(s, q) && FailFirst(cfg, s.(sends := sends), q, h, error, multicast) == OnError(cfg, t, h, r, error)
  {
    hide OnError;
  }

  class Daemon {
    const cfg: Config
    var main: seq<Record>
    var retry: seq<Record>
    var hold: seq<Record>
    var auditLost: nat
    var conn: nat
    var delivered: seq<Record>
    var multicast: seq<Record>
    var sends: nat
    ghost var lost: seq<Record>
    ghost var silent: seq<Record>

    ghost function View(): State
      reads this
    {
      State(main, retry, hold, delivered, lost, silent, multicast, sends)
    }

    function Queued(q: Queue): seq<Record>
      reads this
      ensures Queued(q) == Get(View(), q)
    {
      match q case Main => main case Retry => retry case Hold => hold
    }

    /** audit_log_lost. */
    method LogLost(r: Record)
      modifies this`auditLost, this`lost
      ensures auditLost == old(auditLost) + 1 && lost == old(lost) + [r]
    {
      auditLost, lost := auditLost + 1, lost + [r];
    }

    method RunHook(h: Hook, r: Record, error: int)
      modifies this`retry, this`hold, this`auditLost, this`lost, this`silent
      ensures View() == OnError(cfg, old(View()), h, r, error)
      ensures h == ReholdSkb ==> View() == old(View()).(hold := old(hold) + [r])
      ensures h == RetrySkb || (h == HoldSkb && cfg.auditDefault && error == -EAGAIN) ==>
                View() == Retried(cfg, old(View()), [r])
      ensures h == HoldSkb && (!cfg.auditDefault || error != -EAGAIN) ==> View() == Held(cfg, old(View()), [r])
      ensures auditLost - |lost| == old(auditLost - |lost|)
    {
      HookPlaces(cfg, View(), h, r, error);
      hide Retried, Held;
      match h
      case ReholdSkb => hold := hold + [r];
      case HoldSkb =>
        if !cfg.auditDefault {
          silent := silent + [r];
        } else if error == -EAGAIN {
          if HasRoom(cfg, retry) { retry := retry + [r]; } else { LogLost(r); }
        } else if HasRoom(cfg, hold) {
          hold := hold + [r];
        } else {
          LogLost(r);
        }
      case RetrySkb =>
        if HasRoom(cfg, retry) { retry := retry + [r]; } else { LogLost(r); }
    }

    method Dequeue(q: Queue) returns (r: Record)
      requires Queued(q) != []
      modifies this`main, this`retry, this`hold
      ensures r == old(Queued(q))[0] && View() == Set(old(View()), q, old(Queued(q))[1..])
    {
      r := Queued(q)[0];
      match q
      case Main => main := main[1..];
      case Retry => retry := retry[1..];
      case Hold => hold := hold[1..];
    }

    /** The retry loop of kauditd_send_queue for one record. */
    method UnicastSkb(limit: nat) returns (rc: int)
      modifies this`sends
      ensures rc == Unicast(cfg.net, old(sends), 0, limit).0 && sends == old(sends) + Unicast(cfg.net, old(sends), 0, limit).1
    {
      var failed := 0;
      while true
        invariant failed <= sends - old(sends) && sends >= old(sends)
        invariant Unicast(cfg.net, old(sends), 0, limit).0 == Unicast(cfg.net, sends, failed, limit).0
        invariant old(sends) + Unicast(cfg.net, old(sends), 0, limit).1 == sends + Unicast(cfg.net, sends, failed, limit).1
        decreases limit - failed
      {
        rc := cfg.net(sends);
        sends := sends + 1;
        if rc >= 0 {
          return;
        }
        failed := failed + 1;
        if failed >= limit || rc == -ECONNREFUSED || rc == -EPERM {
          return;
        }
      }
    }

    /** Takes a record off a queue and runs the record hook. */
    method Take(q: Queue, touch: bool) returns (skb: Record)
      requires Queued(q) != []
      modifies this`main, this`retry, this`hold, this`multicast
      ensures skb == old(Queued(q))[0] && View() == Touch(Set(old(View()), q, old(Queued(q))[1..]), skb, touch)
    {
      skb := Dequeue(q);
      if touch {
        multicast := multicast + [skb];
      }
    }

    /** One turn of the loop of kauditd_send_queue. */
    method HandleFirst(q: Queue, sk: bool, rc: int, limit: nat, h: Hook, touch: bool) returns (skb: Record, sk': bool, rc': int)
      requires Queued(q) != []
      modifies this
      ensures skb == old(Queued(q))[0]
      ensures Turn(cfg, old(View()), q, sk, rc, limit, h, touch, View(), sk', rc')
      ensures auditLost - |lost| == old(auditLost - |lost|) && conn == old(conn)
    {
      hide OnError, Accepted, Unicast, FailFirst, Set, Get, Touch;
      ghost var s := View();
      sk', rc' := sk, rc;
      skb := Take(q, touch);
      if !sk {
        FailFirstIs(cfg, s, q, h, -ECONNREFUSED, touch, s.sends);
        RunHook(h, skb, -ECONNREFUSED);
        return;
      }
      rc' := UnicastSkb(limit);
      if rc' < 0 {
        FailFirstIs(cfg, s, q, h, rc', touch, sends);
        sk' := false;
        RunHook(h, skb, rc');
        if rc' == -EAGAIN {
          rc' := 0;
        }
      } else {
        delivered := delivered + [skb];
        AcceptOne(s, q, sends, touch);
      }
    }

    /** kauditd_send_queue: stops after the record that was last when it began, whatever the hook puts back. */
    method SendQueueSkbs(q: Queue, up: bool, limit: nat, h: Hook, touch: bool) returns (rc: int)
      requires forall i, j | 0 <= i < j < |Queued(q)| :: Queued(q)[i] != Queued(q)[j]
      modifies this
      ensures (View(), rc) == SendQueue(cfg, old(View()), q, |old(Queued(q))|, up, limit, h, touch)
      ensures auditLost - |lost| == old(auditLost - |lost|) && conn == old(conn)
    {
      hide *;
      ghost var list := Queued(q);
      ghost var end := SendQueue(cfg, View(), q, |list|, up, limit, h, touch);
      HeadingStart(cfg, View(), q, up, limit, h, touch);
      var tail := if Queued(q) == [] then None else Some(Queued(q)[|Queued(q)| - 1]);
      var skb: Option<Record> := None;
      var sk := up;
      rc := 0;
      ghost var i := 0;
      while skb != tail && Queued(q) != []
        invariant 0 <= i <= |list| && list[i..] <= Queued(q)
        invariant skb == if i == 0 then None else Some(list[i - 1])
        invariant Heading(cfg, View(), q, |list| - i, sk, rc, limit, h, touch, end)
        invariant auditLost - |lost| == old(auditLost - |lost|) && conn == old(conn)
        decreases |list| - i
      {
        ghost var s := View();
        var r, sk', rc' := HandleFirst(q, sk, rc, limit, h, touch);
        HeadingTurn(cfg, s, q, |list| - i, sk, rc, limit, h, touch, end, View(), sk', rc');
        TurnRest(cfg, s, q, sk, rc, limit, h, touch, View(), sk', rc');
        NextOf(list, i, Get(s, q), Queued(q));
        skb, sk, rc, i := Some(r), sk', rc', i + 1;
      }
      HeadingEnd(cfg, View(), q, sk, rc, limit, h, touch, end);
      if rc > 0 {
        rc := 0;
      }
    }

    /** auditd_reset: nothing, when ac is not the current connection any more; otherwise it is dropped and the retry queue flushed. */
    method AuditdReset(ac: nat)
      requires Single(View())
      modifies this
      ensures Single(View())
      ensures if ac != 0 && ac != old(conn) then View() == old(View()) && conn == old(conn)
              else && View() == FlushRetry(cfg, old(View())) && conn == 0
                   && View() == Held(cfg, old(View()).(retry := []), old(retry))
      ensures auditLost - |lost| == old(auditLost - |lost|)
    {
      if ac != 0 && ac != conn {
        return;
      }
      conn := 0;
      while retry != []
        invariant FlushRetry(cfg, old(View())) == FlushRetry(cfg, View()) && conn == 0
        invariant auditLost - |lost| == old(auditLost - |lost|)
        decreases |retry|
      {
        var skb := retry[0];
        retry := retry[1..];
        RunHook(HoldSkb, skb, -ECONNREFUSED);
      }
      FlushSingle(cfg, old(View()));
      FlushPlaces(cfg, old(View()));
    }

    /** Draining one queue of a state in which no record is in two places. */
    method Drain(q: Queue, up: bool, limit: nat, h: Hook, touch: bool) returns (rc: int)
      requires Single(View())
      modifies this
      ensures (View(), rc) == SendQueue(cfg, old(View()), q, |Get(old(View()), q)|, up, limit, h, touch) && Single(View())
      ensures auditLost - |lost| == old(auditLost - |lost|) && conn == old(conn)
    {
      hide SendQueue, Get;
      ghost var s := View();
      NoRepeats(s, q);
      rc := SendQueueSkbs(q, up, limit, h, touch);
      forall r ensures Times(View(), r) == Times(s, r) { SendQueueKeeps(cfg, s, q, |Get(s, q)|, up, limit, h, touch, r); }
      assert Single(View()) by {
        forall r ensures Times(View(), r) <= 1 { assert Times(s, r) <= 1; }
      }
    }

    /** One pass of kauditd_thread over the three queues. */
    method ThreadPass()
      requires Single(View())
      modifies this
      ensures (View(), conn != 0) == Pass(cfg, old(View()), old(conn) != 0) && Single(View())
      ensures (View(), conn != 0) == Told(cfg, old(View()), old(conn) != 0)
      ensures conn == old(conn) || conn == 0
      ensures auditLost - |lost| == old(auditLost - |lost|)
    {
      hide SendQueue, FlushRetry, Told, Held;
      PassMeans(cfg, View(), conn != 0);
      var ac, sk := conn, conn != 0;
      var rc;
      if ac != 0 {
        rc := Drain(Hold, sk, UNICAST_RETRIES, ReholdSkb, false);
        if rc < 0 {
          sk := false;
          AuditdReset(ac);
        } else {
          rc := Drain(Retry, sk, UNICAST_RETRIES, HoldSkb, false);
          if rc < 0 {
            sk := false;
            AuditdReset(ac);
          }
        }
      }
      if !sk { NoSocket(cfg, View(), HoldSkb); }
      rc := Drain(Main, sk, 1, if sk then RetrySkb else HoldSkb, true);
      if ac != 0 && rc < 0 {
        AuditdReset(ac);
      }
    }
  }
}
