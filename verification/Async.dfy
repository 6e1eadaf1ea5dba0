/**
 Asynchronous function calls with cookies, kernel/async.c. Schedulers, workers and waiters are
 interleaved at will; each critical section of async_lock is one step.
 */
module Async {
  import opened Wrappers

  type Domain = nat
  const DEFAULT: Domain := 0

  /** ASYNC_COOKIE_MAX: what lowest_in_progress answers for an empty list. */
  const COOKIE_MAX: nat := 0xffff_ffff_ffff_ffff

  /**
   How far an entry's worker is. A function of the default domain waits for its own cookie before
   its visible operations, so it is Cleared before it makes one.
   */
  datatype Phase = Queued | Running | Cleared | Finished | Gone

  datatype Entry = Entry(domain: Domain, onGlobal: bool, phase: Phase)

  datatype State = State(
    nextCookie: nat,
    registered: set<Domain>,
    entries: map<nat, Entry>,
    pending: map<Domain, seq<nat>>,
    globalPending: seq<nat>,
    entryCount: int,
    visible: seq<nat>)

  datatype Action =
    | Schedule(d: Domain) | RunSynchronously
    | Start(cookie: nat) | OwnWaitDone(cookie: nat) | Visible(cookie: nat) | Return(cookie: nat) | Remove(cookie: nat)
    | WaitDone(bound: nat, on: Option<Domain>)

  function Pending(s: State, d: Domain): seq<nat> {
    if d in s.pending then s.pending[d] else []
  }

  function Init(registered: set<Domain>): State {
    State(1, registered, map[], map[], [], 0, [])
  }

  /** lowest_in_progress: the head of the domain's list, or of the global list for no domain. */
  function LowestInProgress(s: State, on: Option<Domain>): nat {
    var list := if on.Some? then Pending(s, on.value) else s.globalPending;
    if list != [] then list[0] else COOKIE_MAX
  }

  function Without(list: seq<nat>, c: nat): seq<nat> {
    if list == [] then [] else if list[0] == c then list[1..] else [list[0]] + Without(list[1..], c)
  }

  predicate InPhase(s: State, c: nat, p: Phase) {
    c in s.entries && s.entries[c].phase == p
  }

  function SetPhase(s: State, c: nat, p: Phase): State
    requires c in s.entries
  {
    s.(entries := s.entries[c := s.entries[c].(phase := p)])
  }

  /** __async_schedule_node_domain under the lock: a new cookie at the tail of the domain's and perhaps the global list. */
  function Enqueue(s: State, d: Domain): State {
    var c := s.nextCookie;
    var known := d in s.registered;
    s.(nextCookie := c + 1,
       entries := s.entries[c := Entry(d, known, Queued)],
       pending := s.pending[d := Pending(s, d) + [c]],
       globalPending := if known then s.globalPending + [c] else s.globalPending,
       entryCount := s.entryCount + 1)
  }

  /** The end of async_run_entry_fn under the lock. */
  function Dequeue(s: State, c: nat): State
    requires c in s.entries
  {
    var e := s.entries[c];
    SetPhase(s, c, Gone).(
      pending := s.pending[e.domain := Without(Pending(s, e.domain), c)],
      globalPending := if e.onGlobal then Without(s.globalPending, c) else s.globalPending,
      entryCount := s.entryCount - 1)
  }

  /** One step; None when it cannot be taken in this state. */
  function Next(s: State, a: Action): Option<State> {
    match a
    case Schedule(d) => if s.nextCookie < COOKIE_MAX then Some(Enqueue(s, d)) else None
    // Out of memory or too much pending: a cookie is used up, the function runs at once and is on no list.
    case RunSynchronously => if s.nextCookie < COOKIE_MAX then Some(s.(nextCookie := s.nextCookie + 1)) else None
    case Start(c) => if InPhase(s, c, Queued) then Some(SetPhase(s, c, Running)) else None
    case OwnWaitDone(c) =>
      if InPhase(s, c, Running) && s.entries[c].domain == DEFAULT && LowestInProgress(s, Some(DEFAULT)) >= c
      then Some(SetPhase(s, c, Cleared)) else None
    case Visible(c) => if InPhase(s, c, Cleared) then Some(s.(visible := s.visible + [c])) else None
    case Return(c) =>
      if InPhase(s, c, Running) || InPhase(s, c, Cleared) then Some(SetPhase(s, c, Finished)) else None
    case Remove(c) => if InPhase(s, c, Finished) then Some(Dequeue(s, c)) else None
    case WaitDone(bound, on) => if LowestInProgress(s, on) >= bound then Some(s) else None
  }

  function Exec(s: State, run: seq<Action>): Option<State>
    decreases |run|
  {
    if run == [] then Some(s)
    else
      var t := Next(s, run[0]);
      if t.None? then None else Exec(t.value, run[1..])
  }

  // Invariants.

  ghost predicate Sorted(list: seq<nat>) {
    forall i, j | 0 <= i < j < |list| :: list[i] < list[j]
  }

  predicate Done(s: State, c: nat) {
    c in s.entries && (s.entries[c].phase == Finished || s.entries[c].phase == Gone)
  }

  ghost predicate InList(s: State, d: Domain, c: nat) {
    c in s.entries && s.entries[c].domain == d && s.entries[c].phase != Gone
  }

  ghost predicate InGlobal(s: State, c: nat) {
    c in s.entries && s.entries[c].onGlobal && s.entries[c].phase != Gone
  }

  /** All default-domain entries below the cookie have run their function. */
  ghost predicate AllBelowDone(s: State, c: nat) {
    forall b | b in s.entries && b < c && s.entries[b].domain == DEFAULT :: Done(s, b)
  }

  ghost predicate ListsOk(s: State) {
    && (forall d :: Sorted(Pending(s, d)))
    && (forall d, c :: c in Pending(s, d) <==> InList(s, d, c))
    && Sorted(s.globalPending)
    && (forall c :: c in s.globalPending <==> InGlobal(s, c))
    && (forall c | c in s.entries :: 0 < c < s.nextCookie)
    && 0 < s.nextCookie <= COOKIE_MAX
  }

  ghost predicate OrderOk(s: State) {
    && (forall c | InPhase(s, c, Cleared) :: s.entries[c].domain == DEFAULT && AllBelowDone(s, c))
    && (forall i | 0 <= i < |s.visible| :: 0 < s.visible[i] < s.nextCookie && AllBelowDone(s, s.visible[i]))
    && (forall i, j | 0 <= i < j < |s.visible| :: s.visible[i] <= s.visible[j])
  }

  ghost function Live(s: State): set<nat> {
    set c | c in s.entries && s.entries[c].phase != Gone
  }

  ghost predicate Inv(s: State) {
    ListsOk(s) && OrderOk(s) && s.entryCount == |Live(s)|
  }

  lemma SortedTail(list: seq<nat>)
    requires Sorted(list) && list != []
    ensures Sorted(list[1..]) && forall x | x in list[1..] :: list[0] < x
  {
  }

  lemma {:induction false} WithoutElements(list: seq<nat>, c: nat)
    requires Sorted(list)
    ensures forall x :: x in Without(list, c) <==> x in list && x != c
  {
    if list != [] {
      SortedTail(list);
      WithoutElements(list[1..], c);
      assert list == [list[0]] + list[1..];
    }
  }

  lemma SortedCons(c: nat, list: seq<nat>)
    requires Sorted(list) && forall x | x in list :: c < x
    ensures Sorted([c] + list)
  {
    assert forall i | 0 <= i < |list| :: list[i] in list;
  }

  lemma {:induction false} WithoutSorted(list: seq<nat>, c: nat)
    requires Sorted(list)
    ensures Sorted(Without(list, c))
  {
    if list != [] {
      SortedTail(list);
      WithoutSorted(list[1..], c);
      WithoutElements(list[1..], c);
      SortedCons(list[0], Without(list[1..], c));
    }
  }

  lemma SortedAppend(list: seq<nat>, c: nat)
    requires Sorted(list) && forall x | x in list :: x < c
    ensures Sorted(list + [c])
  {
    assert forall i | 0 <= i < |list| :: list[i] in list;
  }

  lemma HeadLowest(list: seq<nat>, c: nat)
    requires Sorted(list) && c in list
    ensures list[0] <= c
  {
  }

  /** A list whose head is not below the bound says that everything below it has finished and gone. */
  lemma LowestMeans(s: State, on: Option<Domain>, bound: nat)
    requires ListsOk(s) && LowestInProgress(s, on) >= bound
    ensures forall c | c in s.entries && c < bound && (if on.Some? then s.entries[c].domain == on.value else s.entries[c].onGlobal)
              :: s.entries[c].phase == Gone
  {
    forall c | c in s.entries && c < bound && (if on.Some? then s.entries[c].domain == on.value else s.entries[c].onGlobal)
      ensures s.entries[c].phase == Gone
    {
      var list := if on.Some? then Pending(s, on.value) else s.globalPending;
      assert on.Some? ==> (c in Pending(s, on.value) <==> InList(s, on.value, c));
      assert on.None? ==> (c in s.globalPending <==> InGlobal(s, c));
      if c in list { HeadLowest(list, c); }
    }
  }

  lemma EnqueueLists(s: State, d: Domain)
    requires ListsOk(s) && s.nextCookie < COOKIE_MAX
    ensures ListsOk(Enqueue(s, d))
  {
    var c, t := s.nextCookie, Enqueue(s, d);
    forall e ensures Sorted(Pending(t, e)) {
      assert Sorted(Pending(s, e));
      if e == d {
        forall x | x in Pending(s, d) ensures x < c { assert InList(s, d, x); }
        SortedAppend(Pending(s, d), c);
      }
    }
    forall x | x in s.globalPending ensures x < c { assert InGlobal(s, x); }
    SortedAppend(s.globalPending, c);
    forall e, x ensures x in Pending(t, e) <==> InList(t, e, x) {
      assert x in Pending(s, e) <==> InList(s, e, x);
    }
    forall x ensures x in t.globalPending <==> InGlobal(t, x) {
      assert x in s.globalPending <==> InGlobal(s, x);
    }
  }

  lemma DequeueLists(s: State, c: nat)
    requires ListsOk(s) && InPhase(s, c, Finished)
    ensures ListsOk(Dequeue(s, c))
  {
    var t := Dequeue(s, c);
    var d := s.entries[c].domain;
    WithoutElements(Pending(s, d), c);
    WithoutSorted(Pending(s, d), c);
    WithoutElements(s.globalPending, c);
    WithoutSorted(s.globalPending, c);
    forall e ensures Sorted(Pending(t, e)) {
      assert Sorted(Pending(s, e));
    }
    forall e, x ensures x in Pending(t, e) <==> InList(t, e, x) {
      assert x in Pending(s, e) <==> InList(s, e, x);
    }
    forall x ensures x in t.globalPending <==> InGlobal(t, x) {
      assert x in s.globalPending <==> InGlobal(s, x);
    }
  }

  lemma PhaseLists(s: State, c: nat, p: Phase)
    requires ListsOk(s) && c in s.entries && s.entries[c].phase != Gone && p != Gone
    ensures ListsOk(SetPhase(s, c, p))
  {
    var t := SetPhase(s, c, p);
    forall e ensures Sorted(Pending(t, e)) {
      assert Sorted(Pending(s, e));
    }
    forall e, x ensures x in Pending(t, e) <==> InList(t, e, x) {
      assert x in Pending(s, e) <==> InList(s, e, x);
    }
    forall x ensures x in t.globalPending <==> InGlobal(t, x) {
      assert x in s.globalPending <==> InGlobal(s, x);
    }
  }

  lemma PhaseOrder(s: State, c: nat, p: Phase)
    requires OrderOk(s) && c in s.entries
    requires Done(s, c) ==> p == Finished || p == Gone
    requires p == Cleared ==> s.entries[c].domain == DEFAULT && AllBelowDone(s, c)
    ensures OrderOk(SetPhase(s, c, p))
  {
    var t := SetPhase(s, c, p);
    forall b | AllBelowDone(s, b) ensures AllBelowDone(t, b) {
      assert forall x | x in t.entries && Done(s, x) :: Done(t, x);
    }
    assert forall x: nat | x != c && InPhase(t, x, Cleared) :: InPhase(s, x, Cleared);
  }

  lemma EnqueueOrder(s: State, d: Domain)
    requires OrderOk(s) && ListsOk(s)
    ensures OrderOk(Enqueue(s, d))
  {
    var t := Enqueue(s, d);
    forall b: nat | b <= s.nextCookie && AllBelowDone(s, b) ensures AllBelowDone(t, b) {
      assert forall x: nat | x in s.entries && Done(s, x) && x < s.nextCookie :: Done(t, x);
    }
    assert forall x: nat | InPhase(t, x, Cleared) :: InPhase(s, x, Cleared);
  }

  /** A function that may now act has nothing acting above it: its operation comes last so far. */
  lemma VisibleOrder(s: State, c: nat)
    requires OrderOk(s) && ListsOk(s) && InPhase(s, c, Cleared)
    ensures OrderOk(s.(visible := s.visible + [c]))
  {
    var t := s.(visible := s.visible + [c]);
    forall b | AllBelowDone(s, b) ensures AllBelowDone(t, b) {
      assert forall x | x in t.entries && Done(s, x) :: Done(t, x);
    }
    forall i | 0 <= i < |s.visible| ensures s.visible[i] <= c {
      assert AllBelowDone(s, s.visible[i]);
      assert !Done(s, c);
    }
    assert forall x: nat | InPhase(t, x, Cleared) :: InPhase(s, x, Cleared);
  }

  lemma CountPhase(s: State, c: nat, p: Phase)
    requires c in s.entries && s.entries[c].phase != Gone
    ensures Live(SetPhase(s, c, p)) == if p == Gone then Live(s) - {c} else Live(s)
    ensures c in Live(s)
  {
  }

  lemma PhaseKeeps(s: State, c: nat, p: Phase)
    requires Inv(s) && c in s.entries && s.entries[c].phase != Gone && p != Gone
    requires Done(s, c) ==> p == Finished
    requires p == Cleared ==> s.entries[c].domain == DEFAULT && AllBelowDone(s, c)
    ensures Inv(SetPhase(s, c, p))
  {
    PhaseLists(s, c, p);
    PhaseOrder(s, c, p);
    CountPhase(s, c, p);
  }

  lemma ScheduleKeeps(s: State, d: Domain)
    requires Inv(s) && s.nextCookie < COOKIE_MAX
    ensures Inv(Enqueue(s, d))
  {
    EnqueueLists(s, d);
    EnqueueOrder(s, d);
    assert s.nextCookie !in Live(s) && Live(Enqueue(s, d)) == Live(s) + {s.nextCookie};
  }

  /** OrderOk only looks at the entries, the next cookie and what was visible. */
  lemma SameOrder(s: State, t: State)
    requires OrderOk(s) && t.entries == s.entries && t.visible == s.visible && s.nextCookie <= t.nextCookie
    ensures OrderOk(t)
  {
    assert forall x :: Done(s, x) == Done(t, x);
    assert forall b :: AllBelowDone(s, b) == AllBelowDone(t, b);
    assert forall x: nat | InPhase(t, x, Cleared) :: InPhase(s, x, Cleared);
  }

  lemma RemoveKeeps(s: State, c: nat)
    requires Inv(s) && InPhase(s, c, Finished)
    ensures Inv(Dequeue(s, c))
  {
    var t := Dequeue(s, c);
    DequeueLists(s, c);
    PhaseOrder(s, c, Gone);
    SameOrder(SetPhase(s, c, Gone), t);
    CountPhase(s, c, Gone);
    assert Live(t) == Live(SetPhase(s, c, Gone));
  }

  lemma OwnWaitMeans(s: State, c: nat)
    requires ListsOk(s) && LowestInProgress(s, Some(DEFAULT)) >= c
    ensures AllBelowDone(s, c)
  {
    LowestMeans(s, Some(DEFAULT), c);
  }

  lemma SameLists(s: State, t: State)
    requires ListsOk(s) && t.entries == s.entries && t.pending == s.pending && t.globalPending == s.globalPending
    requires s.nextCookie <= t.nextCookie <= COOKIE_MAX
    ensures ListsOk(t)
  {
    assert forall d :: Pending(t, d) == Pending(s, d);
    assert forall d, c :: InList(t, d, c) == InList(s, d, c);
    assert forall c :: InGlobal(t, c) == InGlobal(s, c);
  }

  lemma Unlisted(s: State)
    requires Inv(s) && s.nextCookie < COOKIE_MAX
    ensures Inv(s.(nextCookie := s.nextCookie + 1))
  {
    var t := s.(nextCookie := s.nextCookie + 1);
    SameLists(s, t);
    SameOrder(s, t);
    assert Live(t) == Live(s);
  }

  lemma VisibleLists(s: State, c: nat)
    requires ListsOk(s)
    ensures var t := s.(visible := s.visible + [c]); ListsOk(t) && Live(t) == Live(s)
  {
    SameLists(s, s.(visible := s.visible + [c]));
  }

  lemma NextKeeps(s: State, a: Action)
    requires Inv(s) && Next(s, a).Some?
    ensures Inv(Next(s, a).value)
  {
    match a
    case Schedule(d) => ScheduleKeeps(s, d);
    case RunSynchronously => Unlisted(s);
    case Start(c) => PhaseKeeps(s, c, Running);
    case OwnWaitDone(c) => OwnWaitMeans(s, c); PhaseKeeps(s, c, Cleared);
    case Visible(c) => VisibleOrder(s, c); VisibleLists(s, c);
    case Return(c) => PhaseKeeps(s, c, Finished);
    case Remove(c) => RemoveKeeps(s, c);
    case WaitDone(_, _) =>
  }

  // Whole runs.

  lemma {:induction false} RunKeeps(s: State, run: seq<Action>)
    requires Inv(s) && Exec(s, run).Some?
    ensures Inv(Exec(s, run).value)
    decreases |run|
  {
    if run != [] {
      NextKeeps(s, run[0]);
      RunKeeps(Next(s, run[0]).value, run[1..]);
    }
  }

  lemma InitOk(registered: set<Domain>)
    ensures Inv(Init(registered))
  {
    assert Live(Init(registered)) == {};
  }

  lemma {:induction false} ExecConcat(s: State, a: seq<Action>, b: seq<Action>)
    ensures Exec(s, a + b) == (if Exec(s, a).None? then None else Exec(Exec(s, a).value, b))
    decreases |a|
  {
    if a == [] {
      assert a + b == b;
    } else {
      assert (a + b)[0] == a[0] && (a + b)[1..] == a[1..] + b;
      if Next(s, a[0]).Some? { ExecConcat(Next(s, a[0]).value, a[1..], b); }
    }
  }

  /** Every state of every run: the lists are sorted and hold exactly the live entries, and entry_count counts them. */
  lemma StateAt(registered: set<Domain>, run: seq<Action>, i: nat) returns (s: State)
    requires Exec(Init(registered), run).Some? && i <= |run|
    ensures Exec(Init(registered), run[..i]) == Some(s) && Inv(s)
    ensures i < |run| ==> Next(s, run[i]).Some?
  {
    ExecConcat(Init(registered), run[..i], run[i..]);
    assert run[..i] + run[i..] == run;
    s := Exec(Init(registered), run[..i]).value;
    InitOk(registered);
    RunKeeps(Init(registered), run[..i]);
  }

  lemma EntryStep(s: State, a: Action, c: nat)
    requires Next(s, a).Some? && c in s.entries && c < s.nextCookie
    ensures var t := Next(s, a).value;
            && c in t.entries && c < t.nextCookie
            && t.entries[c].domain == s.entries[c].domain && t.entries[c].onGlobal == s.entries[c].onGlobal
            && (Done(t, c) ==> Done(s, c) || a == Return(c))
  {
  }

  /** An entry keeps its cookie and its domain for good. */
  lemma {:induction false} EntryStays(s: State, run: seq<Action>, c: nat)
    requires Exec(s, run).Some? && c in s.entries && c < s.nextCookie
    ensures var t := Exec(s, run).value;
            c in t.entries && t.entries[c].domain == s.entries[c].domain && t.entries[c].onGlobal == s.entries[c].onGlobal
    decreases |run|
  {
    if run != [] {
      EntryStep(s, run[0], c);
      EntryStays(Next(s, run[0]).value, run[1..], c);
    }
  }

  /** It is done only after its function returned. */
  lemma {:induction false} Returned(s: State, run: seq<Action>, c: nat) returns (k: nat)
    requires Exec(s, run).Some? && c in s.entries && c < s.nextCookie && !Done(s, c) && Done(Exec(s, run).value, c)
    ensures k < |run| && run[k] == Return(c)
    decreases |run|
  {
    if run[0] == Return(c) {
      k := 0;
    } else {
      EntryStep(s, run[0], c);
      k := Returned(Next(s, run[0]).value, run[1..], c);
      k := k + 1;
    }
  }

  /** The state after step i, and how the run goes on from it. */
  lemma Onward(registered: set<Domain>, run: seq<Action>, i: nat, j: nat) returns (s: State, t: State)
    requires Exec(Init(registered), run).Some? && i <= j <= |run|
    ensures Exec(Init(registered), run[..i]) == Some(s) && Exec(Init(registered), run[..j]) == Some(t)
    ensures Exec(s, run[i..j]) == Some(t)
    ensures j == i + 1 ==> Next(s, run[i]) == Some(t)
  {
    s := StateAt(registered, run, i);
    t := StateAt(registered, run, j);
    assert run[..j] == run[..i] + run[i..j];
    ExecConcat(Init(registered), run[..i], run[i..j]);
    if j == i + 1 {
      assert run[i..j] == [run[i]];
      assert Exec(s, [run[i]]) == Next(s, run[i]);
    }
  }

  /** What scheduling leaves behind: an entry of that domain under the cookie handed out. */
  lemma Scheduled(registered: set<Domain>, run: seq<Action>, j: nat, i: nat) returns (c: nat, mid: State, s: State)
    requires Exec(Init(registered), run).Some? && j < i <= |run| && run[j].Schedule?
    ensures Exec(Init(registered), run[..j]).Some? && c == Exec(Init(registered), run[..j]).value.nextCookie
    ensures Exec(Init(registered), run[..j + 1]) == Some(mid) && c in mid.entries && c < mid.nextCookie && !Done(mid, c)
    ensures Exec(mid, run[j + 1..i]) == Some(s) && Exec(Init(registered), run[..i]) == Some(s)
    ensures c in s.entries && s.entries[c].domain == run[j].d && s.entries[c].onGlobal == (run[j].d in mid.registered)
  {
    var before;
    before, mid := Onward(registered, run, j, j + 1);
    c := before.nextCookie;
    mid, s := Onward(registered, run, j + 1, i);
    EntryStays(mid, run[j + 1..i], c);
  }

  lemma WaitMeans(registered: set<Domain>, run: seq<Action>, i: nat, s: State, c: nat)
    requires Exec(Init(registered), run).Some? && i < |run| && run[i].WaitDone? && Exec(Init(registered), run[..i]) == Some(s)
    requires c in s.entries && c < run[i].bound
    requires if run[i].on.Some? then s.entries[c].domain == run[i].on.value else s.entries[c].onGlobal
    ensures s.entries[c].phase == Gone
  {
    hide Exec, OrderOk, ListsOk;
    var s' := StateAt(registered, run, i);
    LowestMeans(s, run[i].on, run[i].bound);
  }

  lemma {:induction false} SameDomains(s: State, run: seq<Action>)
    requires Exec(s, run).Some?
    ensures Exec(s, run).value.registered == s.registered
    decreases |run|
  {
    if run != [] {
      SameDomains(Next(s, run[0]).value, run[1..]);
    }
  }

  /**
   When async_synchronize_cookie_domain returns, the function of every entry queued before on that
   domain with a lower cookie has returned; with no domain, of every entry of a registered domain.
   */
  lemma WaitGuarantee(registered: set<Domain>, run: seq<Action>, j: nat, i: nat) returns (c: nat, k: nat)
    requires Exec(Init(registered), run).Some? && j < i < |run| && run[j].Schedule? && run[i].WaitDone?
    requires if run[i].on.Some? then run[i].on.value == run[j].d else run[j].d in registered
    ensures Exec(Init(registered), run[..j]).Some? && c == Exec(Init(registered), run[..j]).value.nextCookie
    ensures c < run[i].bound ==> j < k < i && run[k] == Return(c)
  {
    hide Exec, Done;
    var mid, s;
    c, mid, s := Scheduled(registered, run, j, i);
    k := 0;
    if c < run[i].bound {
      SameDomains(Init(registered), run[..j + 1]);
      WaitMeans(registered, run, i, s, c);
      var m := Returned(mid, run[j + 1..i], c);
      k := j + 1 + m;
    }
  }

  lemma {:induction false} VisibleGrows(s: State, run: seq<Action>)
    requires Exec(s, run).Some?
    ensures s.visible <= Exec(s, run).value.visible
    decreases |run|
  {
    if run != [] {
      VisibleGrows(Next(s, run[0]).value, run[1..]);
    }
  }

  /** What was made visible at step i is still recorded when step j is taken. */
  lemma VisibleAt(registered: set<Domain>, run: seq<Action>, i: nat, c: nat, j: nat) returns (s: State, n: nat)
    requires Exec(Init(registered), run).Some? && i < j <= |run| && run[i] == Visible(c)
    ensures Exec(Init(registered), run[..j]) == Some(s) && n < |s.visible| && s.visible[n] == c
  {
    var a, b := Onward(registered, run, i, i + 1);
    n := |a.visible|;
    assert b.visible == a.visible + [c];
    b, s := Onward(registered, run, i + 1, j);
    VisibleGrows(b, run[i + 1..j]);
  }

  lemma VisibleLast(registered: set<Domain>, run: seq<Action>, s: State, p: nat)
    requires Exec(Init(registered), run) == Some(s) && p < |s.visible|
    ensures s.visible[p] <= s.visible[|s.visible| - 1]
  {
    InitOk(registered);
    RunKeeps(Init(registered), run);
  }

  /** Visible operations of queued default-domain entries happen in the order of their cookies. */
  lemma VisibleInOrder(registered: set<Domain>, run: seq<Action>, i: nat, j: nat, c: nat, d: nat)
    requires Exec(Init(registered), run).Some? && i < j < |run| && run[i] == Visible(c) && run[j] == Visible(d)
    ensures c <= d
  {
    hide Exec, OrderOk, ListsOk;
    var s, n := VisibleAt(registered, run, i, c, j);
    var t := StateAt(registered, run, j);
    var s', e := Onward(registered, run, j, j + 1);
    assert e.visible == t.visible + [d];
    VisibleLast(registered, run[..j + 1], e, n);
  }

  /** The steps the lowest entry of a domain still has to take; only in the default domain does it wait for its own cookie. */
  function HeadSteps(d: Domain, c: nat, p: Phase): seq<Action>
    requires p != Gone
  {
    match p
    case Queued =>
      if d == DEFAULT then [Start(c), OwnWaitDone(c), Visible(c), Return(c), Remove(c)] else [Start(c), Return(c), Remove(c)]
    case Running => if d == DEFAULT then [OwnWaitDone(c), Visible(c), Return(c), Remove(c)] else [Return(c), Remove(c)]
    case Cleared => [Visible(c), Return(c), Remove(c)]
    case Finished => [Remove(c)]
  }

  lemma HeadRuns(s: State, d: Domain, c: nat, p: Phase) returns (t: State)
    requires Pending(s, d) != [] && c == Pending(s, d)[0] && InPhase(s, c, p) && p != Gone && s.entries[c].domain == d
    ensures Exec(s, HeadSteps(d, c, p)) == Some(t) && Pending(t, d) == Pending(s, d)[1..]
    ensures t.entries == s.entries[c := s.entries[c].(phase := Gone)]
    decreases match p case Queued => 4 case Running => 3 case Cleared => 2 case Finished => 1 case Gone => 0
  {
    var steps := HeadSteps(d, c, p);
    if p == Finished {
      t := Dequeue(s, c);
    } else if p == Cleared {
      var u := SetPhase(s.(visible := s.visible + [c]), c, Finished);
      t := HeadRuns(u, d, c, Finished);
      assert steps[1..] == [Return(c), Remove(c)] && steps[1..][1..] == HeadSteps(d, c, Finished);
    } else {
      var q := if p == Queued then Running else if d == DEFAULT then Cleared else Finished;
      t := HeadRuns(SetPhase(s, c, q), d, c, q);
      assert steps[1..] == HeadSteps(d, c, q);
    }
  }

  /** In every state that satisfies the invariant the lowest entry can run to its end; its own wait does not hold it up. */
  lemma HeadFinishes(s: State, d: Domain) returns (t: State)
    requires Inv(s) && Pending(s, d) != []
    ensures var c := Pending(s, d)[0];
            && InList(s, d, c) && Exec(s, HeadSteps(d, c, s.entries[c].phase)) == Some(t)
            && t.entries == s.entries[c := s.entries[c].(phase := Gone)]
    ensures Inv(t) && Pending(t, d) == Pending(s, d)[1..]
  {
    var c := Pending(s, d)[0];
    assert c in Pending(s, d);
    assert InList(s, d, c);
    var p := s.entries[c].phase;
    t := HeadRuns(s, d, c, p);
    RunKeeps(s, HeadSteps(d, c, p));
  }

  predicate ByWorkers(run: seq<Action>) {
    forall i | 0 <= i < |run| :: !run[i].Schedule? && !run[i].RunSynchronously?
  }

  /** So the workers alone, without a new schedule, can empty any domain's list. */
  lemma {:induction false} Drains(s: State, d: Domain) returns (run: seq<Action>, t: State)
    requires Inv(s)
    ensures Exec(s, run) == Some(t) && Inv(t) && Pending(t, d) == []
    ensures |run| <= 5 * |Pending(s, d)| && ByWorkers(run)
    decreases |Pending(s, d)|
  {
    if Pending(s, d) == [] {
      return [], s;
    }
    hide Inv, Exec;
    var c := Pending(s, d)[0];
    var u := HeadFinishes(s, d);
    var rest;
    rest, t := Drains(u, d);
    var steps := HeadSteps(d, c, s.entries[c].phase);
    ExecConcat(s, steps, rest);
    run := steps + rest;
  }

  lemma OneLess(s: State) returns (steps: seq<Action>, t: State)
    requires Inv(s) && Live(s) != {}
    ensures Exec(s, steps) == Some(t) && Inv(t) && |Live(t)| < |Live(s)| && t.entries.Keys == s.entries.Keys && ByWorkers(steps)
  {
    var c :| c in Live(s);
    var d := s.entries[c].domain;
    assert InList(s, d, c);
    assert c in Pending(s, d);
    var first := Pending(s, d)[0];
    hide Exec;
    t := HeadFinishes(s, d);
    assert Live(t) == Live(s) - {first};
    steps := HeadSteps(d, first, s.entries[first].phase);
  }

  /** And all domains, one entry after the other: every function returns, nothing is pending and entry_count is 0. */
  lemma {:induction false} DrainsAll(s: State) returns (run: seq<Action>, t: State)
    requires Inv(s)
    ensures Exec(s, run) == Some(t) && Inv(t) && Live(t) == {} && t.entries.Keys == s.entries.Keys && ByWorkers(run)
    decreases |Live(s)|
  {
    if Live(s) == {} {
      return [], s;
    }
    hide Inv, Exec, Live, HeadSteps;
    var steps, u := OneLess(s);
    var rest;
    rest, t := DrainsAll(u);
    ExecConcat(s, steps, rest);
    run := steps + rest;
  }

  lemma EmptyList(list: seq<nat>)
    ensures list == [] || exists c :: c in list
  {
    if list != [] { assert list[0] in list; }
  }

  lemma NothingLive(s: State)
    requires Inv(s) && Live(s) == {}
    ensures s.entryCount == 0 && s.globalPending == [] && (forall d :: Pending(s, d) == [])
    ensures forall c | c in s.entries :: s.entries[c].phase == Gone
  {
    assert forall c | c in s.entries :: s.entries[c].phase == Gone by {
      assert forall c | c in s.entries && s.entries[c].phase != Gone :: c in Live(s);
    }
    forall d ensures Pending(s, d) == [] { EmptyList(Pending(s, d)); }
    EmptyList(s.globalPending);
  }

  /**
   In every run, at any moment, the workers alone can bring every entry of every domain to its end; so no wait, on one domain
   or on all of them, is stuck for good.
   */
  lemma AlwaysDrains(registered: set<Domain>, run: seq<Action>) returns (more: seq<Action>, t: State)
    requires Exec(Init(registered), run).Some?
    ensures Exec(Init(registered), run + more) == Some(t) && ByWorkers(more)
    ensures t.entryCount == 0 && t.entries.Keys == Exec(Init(registered), run).value.entries.Keys
    ensures forall c | c in t.entries :: t.entries[c].phase == Gone
    ensures forall on: Option<Domain> :: LowestInProgress(t, on) == COOKIE_MAX
  {
    hide Exec, Inv;
    var s := StateAt(registered, run, |run|);
    assert run[..|run|] == run;
    more, t := DrainsAll(s);
    NothingLive(t);
    ExecConcat(Init(registered), run, more);
  }
}
