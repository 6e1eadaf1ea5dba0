/**
 The three queues through which kernel/audit.c hands records to the audit daemon: one pass of
 kauditd_thread, with what netlink answers left open.
 */
module Kauditd {

  type Record = nat

  const EPERM := 1
  const EAGAIN := 11
  const ECONNREFUSED := 111
  const UNICAST_RETRIES := 5

  /** audit_default, audit_backlog_limit (0 for none), and what the n-th netlink_unicast returns. */
  datatype Config = Config(auditDefault: bool, backlogLimit: nat, net: nat -> int)

  datatype Queue = Main | Retry | Hold
  datatype Hook = ReholdSkb | HoldSkb | RetrySkb

  /** The queues; where records went that left them; the records multicast; how often netlink_unicast was called. */
  datatype State = State(
    main: seq<Record>, retry: seq<Record>, hold: seq<Record>,
    delivered: seq<Record>, lost: seq<Record>, silent: seq<Record>,
    multicast: seq<Record>, sends: nat)

  function Get(s: State, q: Queue): seq<Record> {
    match q case Main => s.main case Retry => s.retry case Hold => s.hold
  }

  function Set(s: State, q: Queue, list: seq<Record>): State {
    match q case Main => s.(main := list) case Retry => s.(retry := list) case Hold => s.(hold := list)
  }

  predicate HasRoom(cfg: Config, list: seq<Record>) {
    cfg.backlogLimit == 0 || |list| < cfg.backlogLimit
  }

  /** The hooks for a record that could not be sent. */
  function OnError(cfg: Config, s: State, h: Hook, r: Record, error: int): State {
    match h
    case ReholdSkb => s.(hold := s.hold + [r])
    case HoldSkb =>
      if !cfg.auditDefault then s.(silent := s.silent + [r])
      else if error == -EAGAIN then
        if HasRoom(cfg, s.retry) then s.(retry := s.retry + [r]) else s.(lost := s.lost + [r])
      else if HasRoom(cfg, s.hold) then s.(hold := s.hold + [r])
      else s.(lost := s.lost + [r])
    case RetrySkb => if HasRoom(cfg, s.retry) then s.(retry := s.retry + [r]) else s.(lost := s.lost + [r])
  }

  predicate Fatal(rc: int) {
    rc == -ECONNREFUSED || rc == -EPERM
  }

  /** Sending one record: the last answer, and how often it took. */
  function Unicast(net: nat -> int, n: nat, failed: nat, limit: nat): (int, nat)
    decreases limit - failed
  {
    var rc := net(n);
    if rc >= 0 || failed + 1 >= limit || Fatal(rc) then (rc, 1)
    else
      var rest := Unicast(net, n + 1, failed + 1, limit);
      (rest.0, rest.1 + 1)
  }

  /** A record is tried again only after an error that is not fatal, and given up at a fatal one or at the limit. */
  lemma {:induction false} UnicastMeaning(net: nat -> int, n: nat, failed: nat, limit: nat)
    ensures var (rc, k) := Unicast(net, n, failed, limit);
            && k > 0 && rc == net(n + (k - 1)) && (forall i | n <= i < n + (k - 1) :: net(i) < 0 && net(i) !in {-111, -1})
            && (rc < 0 ==> rc in {-111, -1} || failed + k >= limit) && (k > 1 ==> failed + k <= limit)
    decreases limit - failed
  {
    if net(n) < 0 && failed + 1 < limit && !Fatal(net(n)) {
      UnicastMeaning(net, n + 1, failed + 1, limit);
    }
  }

  // The reference: which records of a list get through, and what becomes of the others.

  /** How many records from the front are delivered, the answer that ended it (0 if none did), and the sends used. */
  datatype Sending = Sending(sent: nat, rc: int, sends: nat)

  function SendRun(net: nat -> int, n: nat, limit: nat, list: seq<Record>): (r: Sending)
    ensures r.sent <= |list| && (r.rc < 0 <==> r.sent < |list|) && r.rc <= 0
    decreases |list|
  {
    if list == [] then Sending(0, 0, n)
    else
      var u := Unicast(net, n, 0, limit);
      if u.0 < 0 then Sending(0, u.0, n + u.1)
      else
        var r := SendRun(net, n + u.1, limit, list[1..]);
        r.(sent := r.sent + 1)
  }

  /** The record hook of the main queue. */
  function Touch(s: State, r: Record, multicast: bool): State {
    if multicast then s.(multicast := s.multicast + [r]) else s
  }

  /** The first record of a queue fails. */
  function FailFirst(cfg: Config, s: State, q: Queue, h: Hook, error: int, multicast: bool): (t: State)
    requires Get(s, q) != []
    ensures |Get(t, q)| >= |Get(s, q)| - 1
  {
    var r := Get(s, q)[0];
    OnError(cfg, Touch(Set(s, q, Get(s, q)[1..]), r, multicast), h, r, error)
  }

  /** The first n records fail, the first with its own error and the others for want of a socket. */
  function FailAll(cfg: Config, s: State, q: Queue, h: Hook, n: nat, error: int, multicast: bool): State
    requires n <= |Get(s, q)|
    decreases n
  {
    if n == 0 then s
    else FailAll(cfg, FailFirst(cfg, s, q, h, error, multicast), q, h, n - 1, -ECONNREFUSED, multicast)
  }

  /** What every single failure keeps, with a count of them, a series of them keeps. */
  lemma {:induction false} FailAllKeeps(cfg: Config, s: State, q: Queue, h: Hook, n: nat, error: int, multicast: bool,
                                        keep: (State, nat) -> bool, i: nat)
    requires n <= |Get(s, q)| && keep(s, i)
    requires forall t, k: nat, e {:trigger FailFirst(cfg, t, q, h, e, multicast), keep(t, k)} | keep(t, k) && k < i + n && Get(t, q) != [] ::
               keep(FailFirst(cfg, t, q, h, e, multicast), k + 1)
    ensures keep(FailAll(cfg, s, q, h, n, error, multicast), i + n)
    decreases n
  {
    if n > 0 {
      FailAllKeeps(cfg, FailFirst(cfg, s, q, h, error, multicast), q, h, n - 1, -ECONNREFUSED, multicast, keep, i + 1);
    }
  }

  function Accepted(s: State, q: Queue, k: nat, sends: nat, multicast: bool): (t: State)
    requires k <= |Get(s, q)|
    ensures |Get(t, q)| == |Get(s, q)| - k
  {
    var list := Get(s, q);
    Set(s, q, list[k..]).(delivered := s.delivered + list[..k], sends := sends,
                          multicast := if multicast then s.multicast + list[..k] else s.multicast)
  }

  function Report(rc: int): int {
    if rc >= 0 || rc == -EAGAIN then 0 else rc
  }

  /** What kauditd_send_queue comes to for the first n records of a queue, with the socket up or given up. */
  function SendQueue(cfg: Config, s: State, q: Queue, n: nat, up: bool, limit: nat, h: Hook, multicast: bool): (State, int)
    requires n <= |Get(s, q)|
  {
    if !up then (FailAll(cfg, s, q, h, n, -ECONNREFUSED, multicast), 0)
    else
      var r := SendRun(cfg.net, s.sends, limit, Get(s, q)[..n]);
      var t := Accepted(s, q, r.sent, r.sends, multicast);
      if r.rc >= 0 then (t, 0) else (FailAll(cfg, t, q, h, n - r.sent, r.rc, multicast), Report(r.rc))
  }

  /** What every delivery and every failure keeps, draining a queue keeps. */
  lemma SendQueueBy(cfg: Config, s: State, q: Queue, n: nat, up: bool, limit: nat, h: Hook, multicast: bool, keep: State -> bool)
    requires n <= |Get(s, q)| && keep(s)
    requires forall t, e {:trigger FailFirst(cfg, t, q, h, e, multicast)} | keep(t) && Get(t, q) != [] ::
               keep(FailFirst(cfg, t, q, h, e, multicast))
    requires forall k, sends {:trigger Accepted(s, q, k, sends, multicast)} | 0 <= k <= |Get(s, q)| :: keep(Accepted(s, q, k, sends, multicast))
    ensures keep(SendQueue(cfg, s, q, n, up, limit, h, multicast).0)
  {
    var all := (t: State, k: nat) => keep(t);
    hide FailFirst, Get, Accepted;
    if !up {
      FailAllKeeps(cfg, s, q, h, n, -ECONNREFUSED, multicast, all, 0);
    } else {
      var r := SendRun(cfg.net, s.sends, limit, Get(s, q)[..n]);
      FailAllKeeps(cfg, Accepted(s, q, r.sent, r.sends, multicast), q, h, n - r.sent, r.rc, multicast, all, 0);
    }
  }

  function FlushRetry(cfg: Config, s: State): State
    decreases |s.retry|
  {
    if s.retry == [] then s
    else FlushRetry(cfg, OnError(cfg, s.(retry := s.retry[1..]), HoldSkb, s.retry[0], -ECONNREFUSED))
  }

  ghost function In(list: seq<Record>, r: Record): nat {
    multiset(list)[r]
  }

  /** How often a record is anywhere: queued, delivered, counted as lost or silently dropped. */
  ghost function Times(s: State, r: Record): nat {
    In(s.main, r) + In(s.retry, r) + In(s.hold, r) + In(s.delivered, r) + In(s.lost, r) + In(s.silent, r)
  }

  /** Records are objects of their own: none is in two places. */
  ghost predicate Single(s: State) {
    forall r :: Times(s, r) <= 1
  }

  lemma InConcat(a: seq<Record>, b: seq<Record>, r: Record)
    ensures In(a + b, r) == In(a, r) + In(b, r)
  {
  }

  lemma NoRepeats(s: State, q: Queue)
    requires Single(s)
    ensures forall i, j | 0 <= i < j < |Get(s, q)| :: Get(s, q)[i] != Get(s, q)[j]
  {
    var list := Get(s, q);
    forall i, j | 0 <= i < j < |list| ensures list[i] != list[j] {
      var x := list[i];
      assert list == list[..j] + [list[j]] + list[j + 1..];
      InConcat(list[..j] + [list[j]], list[j + 1..], x);
      InConcat(list[..j], [list[j]], x);
      assert list[..j][i] == x;
      assert x in list[..j] && In(list[..j], x) >= 1;
      assert Times(s, x) <= 1;
    }
  }

  lemma InFirst(list: seq<Record>, r: Record)
    requires list != []
    ensures In(list, r) == In(list[1..], r) + In([list[0]], r)
  {
    assert list == [list[0]] + list[1..];
  }

  lemma Dequeued(s: State, q: Queue, r: Record, multicast: bool)
    requires Get(s, q) != []
    ensures Times(s, r) == Times(Touch(Set(s, q, Get(s, q)[1..]), Get(s, q)[0], multicast), r) + In([Get(s, q)[0]], r)
  {
    InFirst(Get(s, q), r);
  }

  lemma OnErrorKeeps(cfg: Config, s: State, h: Hook, x: Record, error: int, r: Record)
    ensures Times(OnError(cfg, s, h, x, error), r) == Times(s, r) + In([x], r)
  {
    InConcat(s.hold, [x], r);
    InConcat(s.retry, [x], r);
    InConcat(s.lost, [x], r);
    InConcat(s.silent, [x], r);
  }

  lemma FailFirstTimes(cfg: Config, s: State, q: Queue, h: Hook, error: int, multicast: bool, r: Record)
    requires Get(s, q) != []
    ensures Times(FailFirst(cfg, s, q, h, error, multicast), r) == Times(s, r)
  {
    var x := Get(s, q)[0];
    Dequeued(s, q, r, multicast);
    OnErrorKeeps(cfg, Touch(Set(s, q, Get(s, q)[1..]), x, multicast), h, x, error, r);
  }

  lemma AcceptedKeeps(s: State, q: Queue, k: nat, sends: nat, multicast: bool, r: Record)
    requires k <= |Get(s, q)|
    ensures Times(Accepted(s, q, k, sends, multicast), r) == Times(s, r)
  {
    var list := Get(s, q);
    assert list == list[..k] + list[k..];
    InConcat(list[..k], list[k..], r);
    InConcat(s.delivered, list[..k], r);
  }

  /** Draining a queue neither loses nor doubles a record. */
  lemma SendQueueKeeps(cfg: Config, s: State, q: Queue, n: nat, up: bool, limit: nat, h: Hook, multicast: bool, r: Record)
    requires n <= |Get(s, q)|
    ensures Times(SendQueue(cfg, s, q, n, up, limit, h, multicast).0, r) == Times(s, r)
  {
    forall t, e | Get(t, q) != [] ensures Times(FailFirst(cfg, t, q, h, e, multicast), r) == Times(t, r) {
      FailFirstTimes(cfg, t, q, h, e, multicast, r);
    }
    forall k, sends | 0 <= k <= |Get(s, q)| ensures Times(Accepted(s, q, k, sends, multicast), r) == Times(s, r) {
      AcceptedKeeps(s, q, k, sends, multicast, r);
    }
    var times := Times(s, r);
    SendQueueBy(cfg, s, q, n, up, limit, h, multicast, t => Times(t, r) == times);
  }

  lemma {:induction false} FlushRetryKeeps(cfg: Config, s: State, r: Record)
    ensures Times(FlushRetry(cfg, s), r) == Times(s, r)
    decreases |s.retry|
  {
    if s.retry != [] {
      var t := s.(retry := s.retry[1..]);
      InFirst(s.retry, r);
      OnErrorKeeps(cfg, t, HoldSkb, s.retry[0], -ECONNREFUSED, r);
      FlushRetryKeeps(cfg, OnError(cfg, t, HoldSkb, s.retry[0], -ECONNREFUSED), r);
    }
  }

  // The order of things.

  /** After k failures: the first k records were handled in order, the others are still first in the queue. */
  ghost predicate Handled(cfg: Config, s: State, q: Queue, multicast: bool, t: State, k: nat) {
    var list := Get(s, q);
    && k <= |list| && list[k..] <= Get(t, q)
    && t.delivered == s.delivered
    && t.multicast == (if multicast then s.multicast + list[..k] else s.multicast)
    && (q == Main ==> t.main == list[k..])
    && (cfg.auditDefault ==> t.silent == s.silent)
  }

  lemma HandledHook(cfg: Config, t: State, q: Queue, h: Hook, x: Record, error: int)
    ensures var u := OnError(cfg, t, h, x, error);
            && Get(t, q) <= Get(u, q) && u.delivered == t.delivered && u.multicast == t.multicast && u.main == t.main
            && (cfg.auditDefault ==> u.silent == t.silent)
  {
  }

  lemma HandledNext(cfg: Config, s: State, q: Queue, h: Hook, multicast: bool, t: State, k: nat, error: int)
    requires Handled(cfg, s, q, multicast, t, k) && k < |Get(s, q)|
    ensures Get(t, q) != [] && Handled(cfg, s, q, multicast, FailFirst(cfg, t, q, h, error, multicast), k + 1)
  {
    var list := Get(s, q);
    assert Get(t, q)[0] == list[k] && list[k..][1..] == list[k + 1..];
    assert list[..k + 1] == list[..k] + [list[k]];
    var x := Get(t, q)[0];
    HandledHook(cfg, Touch(Set(t, q, Get(t, q)[1..]), x, multicast), q, h, x, error);
  }

  lemma FailAllOrder(cfg: Config, s: State, q: Queue, h: Hook, n: nat, error: int, multicast: bool)
    requires n <= |Get(s, q)|
    ensures Handled(cfg, s, q, multicast, FailAll(cfg, s, q, h, n, error, multicast), n)
  {
    assert Get(s, q)[0..] == Get(s, q) && Get(s, q)[..0] == [];
    forall t, k: nat, e | Handled(cfg, s, q, multicast, t, k) && k < n && Get(t, q) != []
      ensures Handled(cfg, s, q, multicast, FailFirst(cfg, t, q, h, e, multicast), k + 1)
    {
      HandledNext(cfg, s, q, h, multicast, t, k, e);
    }
    FailAllKeeps(cfg, s, q, h, n, error, multicast, (t: State, k: nat) => Handled(cfg, s, q, multicast, t, k), 0);
  }

  /** Putting the whole hold queue back on itself record by record changes nothing. */
  lemma Reheld(cfg: Config, s: State, n: nat, error: int)
    requires n <= |s.hold|
    ensures FailAll(cfg, s, Hold, ReholdSkb, n, error, false) == s.(hold := s.hold[n..] + s.hold[..n])
  {
    var keep := (t: State, k: nat) => k <= |s.hold| && t == s.(hold := s.hold[k..] + s.hold[..k]);
    forall t, k: nat, e | keep(t, k) && k < n && Get(t, Hold) != []
      ensures keep(FailFirst(cfg, t, Hold, ReholdSkb, e, false), k + 1)
    {
      assert s.hold[k + 1..] + s.hold[..k + 1] == t.hold[1..] + [t.hold[0]];
    }
    assert s.hold[0..] + s.hold[..0] == s.hold;
    FailAllKeeps(cfg, s, Hold, ReholdSkb, n, error, false, keep, 0);
  }

  /** How many records from the front of a queue are delivered. */
  function SentFrom(cfg: Config, s: State, list: seq<Record>, up: bool, limit: nat): (k: nat)
    ensures k <= |list|
  {
    if up then SendRun(cfg.net, s.sends, limit, list).sent else 0
  }

  lemma NoneAccepted(s: State, q: Queue, multicast: bool)
    ensures s == Accepted(s, q, 0, s.sends, multicast)
  {
    var list := Get(s, q);
    assert list[..0] == [] && list[0..] == list;
  }

  lemma AcceptedLeaves(s: State, q: Queue, k: nat, sends: nat, multicast: bool)
    requires k <= |Get(s, q)|
    ensures var t := Accepted(s, q, k, sends, multicast); t.sends == sends && Get(t, q) == Get(s, q)[k..]
  {
  }

  lemma NoneHandled(cfg: Config, s: State, q: Queue, multicast: bool)
    ensures Handled(cfg, s, q, multicast, s, 0)
  {
    var list := Get(s, q);
    assert list[..0] == [] && list[0..] == list;
  }

  /** A queue is drained by delivering a prefix and failing the rest. */
  lemma SendQueueShape(cfg: Config, s: State, q: Queue, up: bool, limit: nat, h: Hook, multicast: bool) returns (k: nat, t: State)
    ensures k == SentFrom(cfg, s, Get(s, q), up, limit) && t == Accepted(s, q, k, t.sends, multicast)
    ensures Handled(cfg, t, q, multicast, SendQueue(cfg, s, q, |Get(s, q)|, up, limit, h, multicast).0, |Get(s, q)| - k)
  {
    hide FailAll, SendRun, Handled, Accepted;
    var list := Get(s, q);
    assert list[..|list|] == list;
    if !up {
      k, t := 0, s;
      NoneAccepted(s, q, multicast);
      FailAllOrder(cfg, t, q, h, |list|, -ECONNREFUSED, multicast);
    } else {
      var r := SendRun(cfg.net, s.sends, limit, list);
      k, t := r.sent, Accepted(s, q, r.sent, r.sends, multicast);
      AcceptedLeaves(s, q, r.sent, r.sends, multicast);
      if r.rc >= 0 { NoneHandled(cfg, t, q, multicast); } else { FailAllOrder(cfg, t, q, h, |list| - k, r.rc, multicast); }
    }
  }

  lemma AllHandled(cfg: Config, s: State, q: Queue, k: nat, sends: nat, multicast: bool, u: State)
    requires k <= |Get(s, q)| && Handled(cfg, Accepted(s, q, k, sends, multicast), q, multicast, u, |Get(s, q)| - k)
    ensures u.delivered == s.delivered + Get(s, q)[..k]
    ensures u.multicast == if multicast then s.multicast + Get(s, q) else s.multicast
    ensures (q == Main ==> u.main == []) && (cfg.auditDefault ==> u.silent == s.silent)
  {
    var list := Get(s, q);
    assert list[..k] + list[k..] == list && list[k..][..|list| - k] == list[k..];
  }

  /**
   kauditd_send_queue handles exactly the records present at entry: those delivered are a prefix,
   ended by the first one refused for good; all of them are multicast once, in order, if any is;
   and nothing is left of a drained main queue.
   */
  lemma SendQueueOrder(cfg: Config, s: State, q: Queue, up: bool, limit: nat, h: Hook, multicast: bool)
    ensures var list := Get(s, q); var t := SendQueue(cfg, s, q, |list|, up, limit, h, multicast).0;
            && t.delivered == s.delivered + list[..SentFrom(cfg, s, list, up, limit)]
            && t.multicast == (if multicast then s.multicast + list else s.multicast)
            && (q == Main ==> t.main == [])
            && (cfg.auditDefault ==> t.silent == s.silent)
  {
    var list := Get(s, q);
    var k, t := SendQueueShape(cfg, s, q, up, limit, h, multicast);
    AllHandled(cfg, s, q, k, t.sends, multicast, SendQueue(cfg, s, q, |list|, up, limit, h, multicast).0);
  }

  /** Flushing the hold queue: the delivered records are a prefix, and the rest stay, in order. */
  lemma HoldQueueOrder(cfg: Config, s: State, limit: nat)
    ensures var t := SendQueue(cfg, s, Hold, |s.hold|, true, limit, ReholdSkb, false).0;
            var k := SentFrom(cfg, s, s.hold, true, limit);
            t == s.(hold := s.hold[k..], delivered := s.delivered + s.hold[..k], sends := t.sends)
  {
    var r := SendRun(cfg.net, s.sends, limit, s.hold);
    var t := Accepted(s, Hold, r.sent, r.sends, false);
    assert s.hold[..|s.hold|] == s.hold;
    if r.rc < 0 {
      Reheld(cfg, t, |t.hold|, r.rc);
      assert t.hold[|t.hold|..] + t.hold[..|t.hold|] == t.hold;
    }
  }

  /** With a backlog limit, neither the retry nor the hold queue is longer than it. */
  predicate Bounded(cfg: Config, s: State) {
    cfg.backlogLimit != 0 ==> |s.retry| <= cfg.backlogLimit && |s.hold| <= cfg.backlogLimit
  }

  lemma FailFirstBounded(cfg: Config, s: State, q: Queue, h: Hook, error: int, multicast: bool)
    requires Get(s, q) != [] && Bounded(cfg, s) && (h == ReholdSkb ==> q == Hold)
    ensures Bounded(cfg, FailFirst(cfg, s, q, h, error, multicast))
  {
  }

  lemma SendQueueBounded(cfg: Config, s: State, q: Queue, up: bool, limit: nat, h: Hook, multicast: bool)
    requires Bounded(cfg, s) && (h == ReholdSkb ==> q == Hold)
    ensures Bounded(cfg, SendQueue(cfg, s, q, |Get(s, q)|, up, limit, h, multicast).0)
  {
    forall t, e | Bounded(cfg, t) && Get(t, q) != [] ensures Bounded(cfg, FailFirst(cfg, t, q, h, e, multicast)) {
      FailFirstBounded(cfg, t, q, h, e, multicast);
    }
    SendQueueBy(cfg, s, q, |Get(s, q)|, up, limit, h, multicast, t => Bounded(cfg, t));
  }

  lemma {:induction false} FlushRetryBounded(cfg: Config, s: State)
    requires Bounded(cfg, s)
    ensures Bounded(cfg, FlushRetry(cfg, s))
    decreases |s.retry|
  {
    if s.retry != [] {
      FlushRetryBounded(cfg, OnError(cfg, s.(retry := s.retry[1..]), HoldSkb, s.retry[0], -ECONNREFUSED));
    }
  }

  /** auditd_reset empties the retry queue into the hold queue, behind what is there. */
  lemma {:induction false} FlushRetryOrder(cfg: Config, s: State)
    ensures var t := FlushRetry(cfg, s);
            && t.retry == [] && s.hold <= t.hold && t.main == s.main && t.delivered == s.delivered && t.multicast == s.multicast
            && (cfg.auditDefault ==> t.silent == s.silent)
            && (cfg.auditDefault && cfg.backlogLimit == 0 ==> t.hold == s.hold + s.retry)
    decreases |s.retry|
  {
    if s.retry != [] {
      assert s.hold + s.retry == s.hold + [s.retry[0]] + s.retry[1..];
      FlushRetryOrder(cfg, OnError(cfg, s.(retry := s.retry[1..]), HoldSkb, s.retry[0], -ECONNREFUSED));
    }
  }

  // One pass of kauditd_thread.

  function MainQueue(cfg: Config, s: State, up: bool): (State, int) {
    SendQueue(cfg, s, Main, |s.main|, up, 1, if up then RetrySkb else HoldSkb, true)
  }

  /** The new state, and whether the connection is still there. */
  function Pass(cfg: Config, s: State, connected: bool): (State, bool) {
    if !connected then (MainQueue(cfg, s, false).0, false)
    else
      var a := SendQueue(cfg, s, Hold, |s.hold|, true, UNICAST_RETRIES, ReholdSkb, false);
      if a.1 < 0 then (MainQueue(cfg, FlushRetry(cfg, a.0), false).0, false)
      else
        var b := SendQueue(cfg, a.0, Retry, |a.0.retry|, true, UNICAST_RETRIES, HoldSkb, false);
        if b.1 < 0 then (MainQueue(cfg, FlushRetry(cfg, b.0), false).0, false)
        else
          var c := MainQueue(cfg, b.0, true);
          if c.1 < 0 then (FlushRetry(cfg, c.0), false) else (c.0, true)
  }

  /** What draining any queue and flushing the retry queue keep, a pass keeps. */
  lemma PassBy(cfg: Config, s: State, connected: bool, keep: State -> bool)
    requires keep(s)
    requires forall t, q, up, limit, h, m {:trigger SendQueue(cfg, t, q, |Get(t, q)|, up, limit, h, m)} | keep(t) && (h == ReholdSkb ==> q == Hold) ::
               keep(SendQueue(cfg, t, q, |Get(t, q)|, up, limit, h, m).0)
    requires forall t | keep(t) :: keep(FlushRetry(cfg, t))
    ensures keep(Pass(cfg, s, connected).0)
  {
    assert forall t: State, up: bool | keep(t) :: keep(MainQueue(cfg, t, up).0) by {
      forall t: State, up: bool | keep(t) ensures keep(MainQueue(cfg, t, up).0) {
        assert |t.main| == |Get(t, Main)|;
      }
    }
    if connected {
      assert |s.hold| == |Get(s, Hold)|;
      var a := SendQueue(cfg, s, Hold, |s.hold|, true, UNICAST_RETRIES, ReholdSkb, false);
      assert |a.0.retry| == |Get(a.0, Retry)|;
    }
  }

  /**
   Across a pass every record stays where it can be accounted for, exactly as often as before:
   queued, delivered, counted in audit_lost, or silently dropped, the last only without audit_default.
   */
  lemma PassConserves(cfg: Config, s: State, connected: bool, r: Record)
    ensures var t := Pass(cfg, s, connected).0;
            Times(t, r) == Times(s, r) && (cfg.auditDefault ==> t.silent == s.silent)
  {
    var times, silent := Times(s, r), s.silent;
    var keep := (t: State) => Times(t, r) == times && (cfg.auditDefault ==> t.silent == silent);
    forall t, q, up, limit, h, m | keep(t) ensures keep(SendQueue(cfg, t, q, |Get(t, q)|, up, limit, h, m).0) {
      SendQueueKeeps(cfg, t, q, |Get(t, q)|, up, limit, h, m, r);
      SendQueueOrder(cfg, t, q, up, limit, h, m);
    }
    forall t | keep(t) ensures keep(FlushRetry(cfg, t)) {
      FlushRetryKeeps(cfg, t, r);
      FlushRetryOrder(cfg, t);
    }
    PassBy(cfg, s, connected, keep);
  }

  /** And the backlog limit is kept to. */
  lemma PassBounded(cfg: Config, s: State, connected: bool)
    requires Bounded(cfg, s)
    ensures Bounded(cfg, Pass(cfg, s, connected).0)
  {
    var keep := (t: State) => Bounded(cfg, t);
    forall t, q, up, limit, h, m | keep(t) && (h == ReholdSkb ==> q == Hold)
      ensures keep(SendQueue(cfg, t, q, |Get(t, q)|, up, limit, h, m).0)
    {
      SendQueueBounded(cfg, t, q, up, limit, h, m);
    }
    forall t | keep(t) ensures keep(FlushRetry(cfg, t)) {
      FlushRetryBounded(cfg, t);
    }
    PassBy(cfg, s, connected, keep);
  }
}
