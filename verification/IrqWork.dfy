/**
 The flag protocol of kernel/irq_work.c. Callers claim and queue work, and on every CPU a list is
 taken and its items are run one after another; all of this is interleaved at will.
 */
module IrqWork {
  import opened Wrappers

  type Work = nat
  type Caller = nat
  type Cpu = nat

  /** The bits of the flag word: IRQ_WORK_PENDING, IRQ_WORK_BUSY, IRQ_WORK_LAZY, IRQ_WORK_HARD_IRQ, CSD_TYPE_IRQ_WORK. */
  datatype Flags = Flags(pending: bool, busy: bool, lazy: bool, hard: bool, csd: bool)

  datatype List = Raised(cpu: Cpu) | Lazy(cpu: Cpu)

  /** irq_work_run_list at work: what it took off the list, and how far irq_work_single is with the first of it. */
  datatype Runner = Runner(chain: seq<Work>, pc: Pc)
  datatype Pc = Between | Loaded(flags: Flags) | Calling(flags: Flags)

  /** Who has to see a claimed item through. */
  datatype Place = Free | Held(caller: Caller) | Listed(list: List) | Chained(list: List)

  datatype State = State(
    rt: bool,
    flags: map<Work, Flags>,
    holders: map<Caller, Work>,
    lists: map<List, seq<Work>>,
    runners: map<List, Runner>,
    places: map<Work, Place>,
    claims: map<Work, nat>,
    starts: map<Work, nat>)

  datatype Action =
    | Claim(k: Caller, w: Work) | Enqueue(k: Caller, cpu: Cpu)
    | TakeAll(l: List) | Load(l: List) | StoreAndCall(l: List) | Release(l: List)

  function ListOf(s: State, l: List): seq<Work> {
    if l in s.lists then s.lists[l] else []
  }

  function RunnerOf(s: State, l: List): Runner {
    if l in s.runners then s.runners[l] else Runner([], Between)
  }

  /** irq_work_claim: the fetch-or, and what a caller does with the old flags. */
  function ClaimStep(s: State, k: Caller, w: Work): State
    requires w in s.flags && w in s.claims
  {
    var f := s.flags[w];
    var claimed := s.(flags := s.flags[w := f.(pending := true, busy := true, csd := true)]);
    if f.pending then claimed
    else claimed.(holders := s.holders[k := w], places := s.places[w := Held(k)], claims := s.claims[w := s.claims[w] + 1])
  }

  /** The list __irq_work_queue_local chooses. */
  function Target(s: State, w: Work, cpu: Cpu): List
    requires w in s.flags
  {
    if s.flags[w].lazy || (s.rt && !s.flags[w].hard) then Lazy(cpu) else Raised(cpu)
  }

  function EnqueueStep(s: State, k: Caller, cpu: Cpu): State
    requires k in s.holders && s.holders[k] in s.flags
  {
    var w := s.holders[k];
    var l := Target(s, w, cpu);
    s.(holders := s.holders - {k}, lists := s.lists[l := [w] + ListOf(s, l)], places := s.places[w := Listed(l)])
  }

  function TakeStep(s: State, l: List): State {
    var taken := ListOf(s, l);
    s.(lists := s.lists[l := []], runners := s.runners[l := Runner(taken, Between)],
       places := map w | w in s.places :: if s.places[w] == Listed(l) then Chained(l) else s.places[w])
  }

  function StoreStep(s: State, l: List, w: Work, f: Flags): State
    requires w in s.starts
  {
    var r := RunnerOf(s, l);
    s.(flags := s.flags[w := f], runners := s.runners[l := r.(pc := Calling(f))],
       places := s.places[w := Free], starts := s.starts[w := s.starts[w] + 1])
  }

  /** The compare-exchange after the callback, and on to the next item. */
  function ReleaseStep(s: State, l: List, w: Work, f: Flags): State
    requires w in s.flags && RunnerOf(s, l).chain != []
  {
    var r := RunnerOf(s, l);
    s.(flags := if s.flags[w] == f then s.flags[w := f.(busy := false)] else s.flags,
       runners := s.runners[l := Runner(r.chain[1..], Between)])
  }

  predicate Known(s: State, w: Work) {
    w in s.flags && w in s.places && w in s.claims && w in s.starts
  }

  /** One step; None when it cannot be taken in this state. */
  function Next(s: State, a: Action): Option<State> {
    match a
    case Claim(k, w) => if Known(s, w) && k !in s.holders then Some(ClaimStep(s, k, w)) else None
    case Enqueue(k, cpu) => if k in s.holders && s.holders[k] in s.flags then Some(EnqueueStep(s, k, cpu)) else None
    case TakeAll(l) => if RunnerOf(s, l) == Runner([], Between) then Some(TakeStep(s, l)) else None
    case Load(l) =>
      var r := RunnerOf(s, l);
      if r.pc == Between && r.chain != [] && Known(s, r.chain[0])
      then Some(s.(runners := s.runners[l := r.(pc := Loaded(s.flags[r.chain[0]].(pending := false)))])) else None
    case StoreAndCall(l) =>
      var r := RunnerOf(s, l);
      if r.pc.Loaded? && r.chain != [] && Known(s, r.chain[0]) then Some(StoreStep(s, l, r.chain[0], r.pc.flags)) else None
    case Release(l) =>
      var r := RunnerOf(s, l);
      if r.pc.Calling? && r.chain != [] && Known(s, r.chain[0]) then Some(ReleaseStep(s, l, r.chain[0], r.pc.flags)) else None
  }

  function Exec(s: State, run: seq<Action>): Option<State>
    decreases |run|
  {
    if run == [] then Some(s)
    else
      var t := Next(s, run[0]);
      if t.None? then None else Exec(t.value, run[1..])
  }

  /** Items with their LAZY and HARD_IRQ bits chosen, none of them claimed yet. */
  function Init(rt: bool, flags: map<Work, Flags>): State {
    State(rt, flags, map[], map[], map[], map w | w in flags :: Free, map w | w in flags :: 0, map w | w in flags :: 0)
  }

  predicate Unclaimed(flags: map<Work, Flags>) {
    forall w | w in flags :: !flags[w].pending && !flags[w].busy
  }

  // Invariants.

  ghost predicate Distinct(s: seq<Work>) {
    forall i, j | 0 <= i < j < |s| :: s[i] != s[j]
  }

  /** The items of a taken list whose PENDING bit is still to be cleared. */
  function Waiting(r: Runner): seq<Work> {
    if r.pc.Calling? && r.chain != [] then r.chain[1..] else r.chain
  }

  /** PENDING says that somebody has to see the item through; claims are callback starts plus the one still pending. */
  predicate WordOk(s: State, w: Work)
    requires w in s.flags
  {
    && w in s.places && w in s.claims && w in s.starts
    && (s.flags[w].pending <==> s.places[w] != Free)
    && (s.flags[w].pending ==> s.flags[w].busy && s.flags[w].csd)
    && s.claims[w] == s.starts[w] + if s.flags[w].pending then 1 else 0
  }

  ghost predicate WordsOk(s: State) {
    && (forall w | w in s.flags :: WordOk(s, w))
    && (forall w | w in s.places :: w in s.flags)
  }

  /** A list holds exactly the items placed on it, each once. */
  ghost predicate Holds(list: seq<Work>, places: map<Work, Place>, p: Place) {
    Distinct(list) && forall w :: w in list <==> w in places && places[w] == p
  }

  ghost predicate HolderOk(s: State, k: Caller) {
    forall w :: (k in s.holders && s.holders[k] == w) <==> w in s.places && s.places[w] == Held(k)
  }

  ghost predicate ListOk(s: State, l: List) {
    Holds(ListOf(s, l), s.places, Listed(l))
  }

  ghost predicate RunnerOk(s: State, l: List) {
    var r := RunnerOf(s, l);
    && Holds(Waiting(r), s.places, Chained(l))
    && (r.pc != Between ==> r.chain != [] && r.chain[0] in s.flags)
    && (r.pc.Loaded? ==> r.pc.flags == s.flags[r.chain[0]].(pending := false))
    && (r.pc.Calling? ==> r.pc.flags.busy && !r.pc.flags.pending)
  }

  ghost predicate Inv(s: State) {
    && WordsOk(s)
    && (forall k :: HolderOk(s, k)) && (forall l :: ListOk(s, l)) && (forall l :: RunnerOk(s, l))
  }

  /** Moving an item from one place to another leaves the holders of every third place alone. */
  lemma HoldsStill(list: seq<Work>, places: map<Work, Place>, w: Work, q: Place, p: Place)
    requires Holds(list, places, p) && w in places && places[w] != p && q != p
    ensures Holds(list, places[w := q], p)
  {
  }

  lemma HolderStill(s: State, t: State, j: Caller, w: Work, q: Place)
    requires HolderOk(s, j) && w in s.places && s.places[w] != Held(j) && q != Held(j)
    requires t.places == s.places[w := q] && (j in t.holders <==> j in s.holders) && (j in s.holders ==> t.holders[j] == s.holders[j])
    ensures HolderOk(t, j)
  {
  }

  /** A step that gives item w new flags, perhaps moves it to place q, and leaves runner l alone. */
  lemma RunnerStill(s: State, t: State, l: List, w: Work, q: Place)
    requires RunnerOk(s, l) && w in s.flags && WordOk(s, w)
    requires RunnerOf(t, l) == RunnerOf(s, l)
    requires t.places == s.places || (t.places == s.places[w := q] && q != Chained(l) && s.places[w] != Chained(l))
    requires forall x | x in s.flags && x != w :: x in t.flags && t.flags[x] == s.flags[x]
    requires w in t.flags && (s.flags[w].pending && s.places[w] == Chained(l) ==> t.flags[w] == s.flags[w])
    ensures RunnerOk(t, l)
  {
    var r := RunnerOf(s, l);
    assert r.pc.Loaded? ==> r.chain[0] in Waiting(r);
    if t.places != s.places {
      HoldsStill(Waiting(r), s.places, w, q, Chained(l));
    }
  }

  lemma ClaimWords(s: State, k: Caller, w: Work)
    requires WordsOk(s) && Known(s, w) && !s.flags[w].pending
    ensures WordsOk(ClaimStep(s, k, w))
  {
    var t := ClaimStep(s, k, w);
    forall x | x in t.flags ensures WordOk(t, x) { assert WordOk(s, x); }
  }

  lemma ClaimHolders(s: State, k: Caller, w: Work, j: Caller)
    requires HolderOk(s, j) && Known(s, w) && !s.flags[w].pending && s.places[w] == Free && k !in s.holders
    ensures HolderOk(ClaimStep(s, k, w), j)
  {
    if j != k { HolderStill(s, ClaimStep(s, k, w), j, w, Held(k)); }
  }

  lemma ClaimKeeps(s: State, k: Caller, w: Work)
    requires Inv(s) && Known(s, w) && k !in s.holders
    ensures Inv(ClaimStep(s, k, w))
  {
    var t := ClaimStep(s, k, w);
    assert WordOk(s, w);
    if s.flags[w].pending {
      assert t.flags == s.flags;
      return;
    }
    ClaimWords(s, k, w);
    hide Holds, Waiting, RunnerOk, WordsOk, HolderOk;
    forall j ensures HolderOk(t, j) { ClaimHolders(s, k, w, j); }
    forall l ensures ListOk(t, l) {
      assert ListOk(s, l);
      HoldsStill(ListOf(s, l), s.places, w, Held(k), Listed(l));
    }
    forall l ensures RunnerOk(t, l) {
      assert RunnerOk(s, l);
      RunnerStill(s, t, l, w, Held(k));
    }
  }

  lemma EnqueueKeeps(s: State, k: Caller, cpu: Cpu)
    requires Inv(s) && k in s.holders && s.holders[k] in s.flags
    ensures Inv(EnqueueStep(s, k, cpu))
  {
    var t := EnqueueStep(s, k, cpu);
    var w := s.holders[k];
    var q := Listed(Target(s, w, cpu));
    assert HolderOk(s, k);
    forall j ensures HolderOk(t, j) {
      assert HolderOk(s, j);
      if j != k { HolderStill(s, t, j, w, q); }
    }
    forall l ensures ListOk(t, l) {
      assert ListOk(s, l);
      if q != Listed(l) { HoldsStill(ListOf(s, l), s.places, w, q, Listed(l)); }
    }
    forall l ensures RunnerOk(t, l) {
      assert RunnerOk(s, l);
      RunnerStill(s, t, l, w, q);
    }
    forall x | x in t.flags ensures WordOk(t, x) { assert WordOk(s, x); }
  }

  lemma TakeKeeps(s: State, l: List)
    requires Inv(s) && RunnerOf(s, l) == Runner([], Between)
    ensures Inv(TakeStep(s, l))
  {
    var t := TakeStep(s, l);
    assert ListOk(s, l) && RunnerOk(s, l);
    forall j ensures HolderOk(t, j) { assert HolderOk(s, j); }
    forall m ensures ListOk(t, m) { assert ListOk(s, m); }
    forall m ensures RunnerOk(t, m) { assert RunnerOk(s, m); }
  }

  lemma LoadKeeps(s: State, l: List)
    requires Inv(s) && Next(s, Load(l)).Some?
    ensures Inv(Next(s, Load(l)).value)
  {
    var t := Next(s, Load(l)).value;
    forall j ensures HolderOk(t, j) { assert HolderOk(s, j); }
    forall m ensures ListOk(t, m) { assert ListOk(s, m); }
    forall m ensures RunnerOk(t, m) { assert RunnerOk(s, m); }
  }

  lemma FirstLeaves(chain: seq<Work>, places: map<Work, Place>, p: Place, q: Place)
    requires Holds(chain, places, p) && chain != [] && q != p
    ensures Holds(chain[1..], places[chain[0] := q], p)
  {
    assert chain == [chain[0]] + chain[1..];
  }

  lemma StoreKeeps(s: State, l: List)
    requires Inv(s) && Next(s, StoreAndCall(l)).Some?
    ensures Inv(Next(s, StoreAndCall(l)).value)
  {
    var t := Next(s, StoreAndCall(l)).value;
    var w := RunnerOf(s, l).chain[0];
    assert RunnerOk(s, l) && w in Waiting(RunnerOf(s, l));
    forall j ensures HolderOk(t, j) {
      assert HolderOk(s, j);
      HolderStill(s, t, j, w, Free);
    }
    forall m ensures ListOk(t, m) {
      assert ListOk(s, m);
      HoldsStill(ListOf(s, m), s.places, w, Free, Listed(m));
    }
    forall m ensures RunnerOk(t, m) {
      assert RunnerOk(s, m);
      if m != l { RunnerStill(s, t, m, w, Free); } else { FirstLeaves(RunnerOf(s, l).chain, s.places, Chained(l), Free); }
    }
    forall x | x in t.flags ensures WordOk(t, x) { assert WordOk(s, x); }
  }

  lemma ReleaseKeeps(s: State, l: List)
    requires Inv(s) && Next(s, Release(l)).Some?
    ensures Inv(Next(s, Release(l)).value)
  {
    var t := Next(s, Release(l)).value;
    var w := RunnerOf(s, l).chain[0];
    assert RunnerOk(s, l);
    forall j ensures HolderOk(t, j) { assert HolderOk(s, j); }
    forall m ensures ListOk(t, m) { assert ListOk(s, m); }
    forall m ensures RunnerOk(t, m) {
      assert RunnerOk(s, m);
      if m != l { RunnerStill(s, t, m, w, Free); }
    }
    forall x | x in t.flags ensures WordOk(t, x) { assert WordOk(s, x); }
  }

  lemma NextKeeps(s: State, a: Action)
    requires Inv(s) && Next(s, a).Some?
    ensures Inv(Next(s, a).value)
  {
    match a
    case Claim(k, w) => ClaimKeeps(s, k, w);
    case Enqueue(k, cpu) => EnqueueKeeps(s, k, cpu);
    case TakeAll(l) => TakeKeeps(s, l);
    case Load(l) => LoadKeeps(s, l);
    case StoreAndCall(l) => StoreKeeps(s, l);
    case Release(l) => ReleaseKeeps(s, l);
  }

  lemma {:induction false} RunKeeps(s: State, run: seq<Action>)
    requires Inv(s) && Exec(s, run).Some?
    ensures Inv(Exec(s, run).value)
    decreases |run|
  {
    if run != [] {
      NextKeeps(s, run[0]);
      RunKeeps(Next(s, run[0]).value, run[1..]);
    }
  }

  lemma InitOk(rt: bool, flags: map<Work, Flags>)
    requires Unclaimed(flags)
    ensures Inv(Init(rt, flags))
  {
  }

  lemma KeepsItem(s: State, a: Action, w: Work)
    requires Next(s, a).Some? && w in s.flags
    ensures w in Next(s, a).value.flags
  {
  }

  lemma {:induction false} KeepsItems(s: State, run: seq<Action>, w: Work)
    requires Exec(s, run).Some? && w in s.flags
    ensures w in Exec(s, run).value.flags
    decreases |run|
  {
    if run != [] {
      KeepsItem(s, run[0], w);
      KeepsItems(Next(s, run[0]).value, run[1..], w);
    }
  }

  /** In every interleaving an item is on at most one list, once; and its claims are its callback starts plus the pending one. */
  lemma OnOneList(rt: bool, flags: map<Work, Flags>, run: seq<Action>, w: Work, l: List, m: List)
    requires Unclaimed(flags) && Exec(Init(rt, flags), run).Some? && w in flags
    ensures var s := Exec(Init(rt, flags), run).value;
            && Distinct(ListOf(s, l))
            && (w in ListOf(s, l) && w in ListOf(s, m) ==> l == m)
            && (w in ListOf(s, l) ==> w !in Waiting(RunnerOf(s, m)) && forall k | k in s.holders :: s.holders[k] != w)
            && w in s.flags && w in s.claims && w in s.starts
            && s.claims[w] == s.starts[w] + (if s.flags[w].pending then 1 else 0)
  {
    var s := Exec(Init(rt, flags), run).value;
    InitOk(rt, flags);
    RunKeeps(Init(rt, flags), run);
    KeepsItems(Init(rt, flags), run, w);
    assert ListOk(s, l) && ListOk(s, m) && RunnerOk(s, m) && WordOk(s, w);
    forall k | k in s.holders ensures w in ListOf(s, l) ==> s.holders[k] != w { assert HolderOk(s, k); }
  }

  /** Taking a list or starting on an item changes no flags, and nothing of another runner. */
  lemma OthersLeave(s: State, l: List, w: Work, a: Action)
    requires RunnerOf(s, l).pc.Loaded? && w in s.flags && WordOk(s, w) && s.flags[w].pending && Next(s, a).Some?
    requires a.Claim? || a.Enqueue? || a.TakeAll? || a.Load?
    ensures var t := Next(s, a).value; RunnerOf(t, l) == RunnerOf(s, l) && w in t.flags && t.flags[w] == s.flags[w]
  {
  }

  lemma RunnersApart(s: State, l: List, m: List, a: Action)
    requires Next(s, a).Some? && l != m && (a == StoreAndCall(m) || a == Release(m))
    ensures RunnerOf(Next(s, a).value, l) == RunnerOf(s, l)
  {
  }

  /** Another runner stores the flags of another item. */
  lemma StoreLeaves(s: State, m: List, l: List, w: Work)
    requires Inv(s) && Next(s, StoreAndCall(m)).Some? && m != l && w in Waiting(RunnerOf(s, l)) && w in s.flags
    ensures w in Next(s, StoreAndCall(m)).value.flags && Next(s, StoreAndCall(m)).value.flags[w] == s.flags[w]
  {
    assert RunnerOk(s, l) && RunnerOk(s, m) && RunnerOf(s, m).chain[0] in Waiting(RunnerOf(s, m));
  }

  lemma ReleaseLeaves(s: State, m: List, w: Work)
    requires Inv(s) && Next(s, Release(m)).Some? && w in s.flags && s.flags[w].pending
    ensures w in Next(s, Release(m)).value.flags && Next(s, Release(m)).value.flags[w] == s.flags[w]
  {
    assert RunnerOk(s, m);
  }

  /** Between the load and the store that clear PENDING, no step of anybody else changes the flag word. */
  lemma Undisturbed(s: State, l: List, w: Work, a: Action)
    requires Inv(s) && RunnerOf(s, l).pc.Loaded? && RunnerOf(s, l).chain != [] && RunnerOf(s, l).chain[0] == w
    requires Next(s, a).Some? && a != StoreAndCall(l)
    ensures var t := Next(s, a).value;
            RunnerOf(t, l) == RunnerOf(s, l) && w in s.flags && w in t.flags && t.flags[w] == s.flags[w]
  {
    assert RunnerOk(s, l) && w in Waiting(RunnerOf(s, l)) && WordOk(s, w);
    assert a != Release(l);
    hide RunnerOk, Inv, Waiting, Next, RunnerOf;
    match a
    case StoreAndCall(m) => StoreLeaves(s, m, l, w); RunnersApart(s, l, m, a);
    case Release(m) => ReleaseLeaves(s, m, w); RunnersApart(s, l, m, a);
    case _ => OthersLeave(s, l, w, a);
  }

  /** So in every run the store puts back exactly the word that was loaded, without PENDING. */
  lemma LoadThenStore(rt: bool, flags: map<Work, Flags>, run: seq<Action>, l: List, w: Work)
    requires Unclaimed(flags) && Exec(Init(rt, flags), run).Some?
    requires var r := RunnerOf(Exec(Init(rt, flags), run).value, l); r.pc.Loaded? && r.chain != [] && r.chain[0] == w
    ensures var s := Exec(Init(rt, flags), run).value;
            w in s.flags && s.flags[w].pending && RunnerOf(s, l).pc.flags == s.flags[w].(pending := false)
  {
    var s := Exec(Init(rt, flags), run).value;
    InitOk(rt, flags);
    RunKeeps(Init(rt, flags), run);
    assert RunnerOk(s, l) && w in Waiting(RunnerOf(s, l)) && WordOk(s, w);
  }

  // Work that is only ever queued on one CPU.

  /** Runner l is inside the callback of w. */
  predicate InCallback(s: State, l: List, w: Work) {
    var r := RunnerOf(s, l);
    r.pc.Calling? && r.chain != [] && r.chain[0] == w
  }

  predicate InUse(s: State, w: Work, l: List) {
    (w in s.places && s.places[w] != Free) || InCallback(s, l, w)
  }

  /** All that goes on with w goes on at list l, and BUSY says whether anything does. */
  ghost predicate AtHome(s: State, w: Work, l: List) {
    && w in s.flags && Target(s, w, l.cpu) == l
    && (forall m | m != l :: !InCallback(s, m, w) && !(w in s.places && (s.places[w] == Listed(m) || s.places[w] == Chained(m))))
    && (InCallback(s, l, w) ==> s.flags[w] == RunnerOf(s, l).pc.flags || s.flags[w].pending)
    && (s.flags[w].busy <==> InUse(s, w, l))
  }

  /** A step that has nothing to do with w. */
  lemma HomeStill(s: State, t: State, w: Work, l: List)
    requires AtHome(s, w, l) && t.rt == s.rt
    requires w in t.flags && t.flags[w] == s.flags[w]
    requires (w in t.places <==> w in s.places) && (w in s.places ==> t.places[w] == s.places[w])
    requires forall m :: InCallback(t, m, w) == InCallback(s, m, w)
    requires InCallback(s, l, w) ==> RunnerOf(t, l).pc == RunnerOf(s, l).pc
    ensures AtHome(t, w, l)
  {
  }

  lemma HomeClaim(s: State, k: Caller, w: Work, l: List)
    requires AtHome(s, w, l) && WordOk(s, w)
    ensures AtHome(ClaimStep(s, k, w), w, l)
  {
    var t := ClaimStep(s, k, w);
    assert forall m :: RunnerOf(t, m) == RunnerOf(s, m);
  }

  lemma HomeEnqueue(s: State, k: Caller, w: Work, l: List)
    requires AtHome(s, w, l) && WordOk(s, w) && k in s.holders && s.holders[k] == w && s.places[w] == Held(k)
    ensures AtHome(EnqueueStep(s, k, l.cpu), w, l)
  {
    var t := EnqueueStep(s, k, l.cpu);
    assert forall m :: RunnerOf(t, m) == RunnerOf(s, m);
    assert forall m :: InCallback(t, m, w) == InCallback(s, m, w);
  }

  lemma HomeTake(s: State, w: Work, l: List, m: List)
    requires AtHome(s, w, l) && WordOk(s, w) && RunnerOf(s, m) == Runner([], Between)
    ensures AtHome(TakeStep(s, m), w, l)
  {
    var t := TakeStep(s, m);
    assert forall n | n != m :: RunnerOf(t, n) == RunnerOf(s, n);
    assert forall n :: InCallback(t, n, w) == InCallback(s, n, w);
  }

  lemma HomeLoad(s: State, w: Work, l: List, m: List)
    requires AtHome(s, w, l) && Next(s, Load(m)).Some?
    ensures AtHome(Next(s, Load(m)).value, w, l)
  {
    var t := Next(s, Load(m)).value;
    assert forall n | n != m :: RunnerOf(t, n) == RunnerOf(s, n);
    HomeStill(s, t, w, l);
  }

  lemma HomeStore(s: State, w: Work, l: List, m: List)
    requires AtHome(s, w, l) && WordOk(s, w) && RunnerOk(s, m) && Next(s, StoreAndCall(m)).Some?
    ensures AtHome(Next(s, StoreAndCall(m)).value, w, l)
  {
    var t := Next(s, StoreAndCall(m)).value;
    assert forall n | n != m :: RunnerOf(t, n) == RunnerOf(s, n);
    assert RunnerOf(s, m).chain[0] in Waiting(RunnerOf(s, m));
    if RunnerOf(s, m).chain[0] != w {
      HomeStill(s, t, w, l);
    } else {
      assert m != l ==> !InCallback(s, m, w);
      assert forall n | n != l :: InCallback(t, n, w) == InCallback(s, n, w);
      assert InCallback(t, l, w);
    }
  }

  lemma HomeRelease(s: State, w: Work, l: List, m: List)
    requires AtHome(s, w, l) && WordOk(s, w) && RunnerOk(s, m) && Next(s, Release(m)).Some?
    ensures AtHome(Next(s, Release(m)).value, w, l)
  {
    var t := Next(s, Release(m)).value;
    assert forall n | n != m :: RunnerOf(t, n) == RunnerOf(s, n);
    if RunnerOf(s, m).chain[0] != w {
      HomeStill(s, t, w, l);
    } else {
      assert InCallback(s, m, w);
      assert forall n | n != l :: InCallback(t, n, w) == InCallback(s, n, w);
      assert !InCallback(t, l, w);
    }
  }

  lemma HomeOther(s: State, a: Action, w: Work, l: List)
    requires AtHome(s, w, l) && Next(s, a).Some?
    requires (a.Claim? && a.w != w) || (a.Enqueue? && s.holders[a.k] != w)
    ensures AtHome(Next(s, a).value, w, l)
  {
    var t := Next(s, a).value;
    assert forall m :: RunnerOf(t, m) == RunnerOf(s, m);
    HomeStill(s, t, w, l);
  }

  lemma HomeStep(s: State, a: Action, w: Work, l: List)
    requires Inv(s) && AtHome(s, w, l) && Next(s, a).Some?
    requires a.Enqueue? && s.holders[a.k] == w ==> a.cpu == l.cpu
    ensures AtHome(Next(s, a).value, w, l)
  {
    assert WordOk(s, w);
    match a
    case Claim(k, x) =>
      if x == w { HomeClaim(s, k, w, l); } else { HomeOther(s, a, w, l); }
    case Enqueue(k, _) =>
      assert HolderOk(s, k);
      if s.holders[k] == w { HomeEnqueue(s, k, w, l); } else { HomeOther(s, a, w, l); }
    case TakeAll(m) => HomeTake(s, w, l, m);
    case Load(m) => HomeLoad(s, w, l, m);
    case StoreAndCall(m) => assert RunnerOk(s, m); HomeStore(s, w, l, m);
    case Release(m) => assert RunnerOk(s, m); HomeRelease(s, w, l, m);
  }

  /** Throughout the run w is queued on this CPU only. */
  ghost predicate QueuedOn(s: State, run: seq<Action>, w: Work, cpu: Cpu)
    decreases |run|
  {
    run == []
    || (&& Next(s, run[0]).Some?
        && (run[0].Enqueue? && run[0].k in s.holders && s.holders[run[0].k] == w ==> run[0].cpu == cpu)
        && QueuedOn(Next(s, run[0]).value, run[1..], w, cpu))
  }

  lemma {:induction false} HomeRun(s: State, run: seq<Action>, w: Work, l: List)
    requires Inv(s) && AtHome(s, w, l) && QueuedOn(s, run, w, l.cpu)
    ensures Exec(s, run).Some? && AtHome(Exec(s, run).value, w, l)
    decreases |run|
  {
    if run != [] {
      HomeStep(s, run[0], w, l);
      NextKeeps(s, run[0]);
      HomeRun(Next(s, run[0]).value, run[1..], w, l);
    }
  }

  /**
   For work queued on one CPU, in every interleaving, BUSY is set exactly while it is claimed,
   queued, waiting in a taken list or in its callback; so irq_work_sync returns only when none of these holds.
   */
  lemma BusyMeansInUse(rt: bool, flags: map<Work, Flags>, run: seq<Action>, w: Work, cpu: Cpu) returns (l: List)
    requires Unclaimed(flags) && w in flags && QueuedOn(Init(rt, flags), run, w, cpu)
    ensures l == Target(Init(rt, flags), w, cpu) && Exec(Init(rt, flags), run).Some?
    ensures var s := Exec(Init(rt, flags), run).value;
            && w in s.flags && (s.flags[w].busy <==> InUse(s, w, l))
            && forall m | m != l :: !InCallback(s, m, w)
  {
    l := Target(Init(rt, flags), w, cpu);
    InitOk(rt, flags);
    HomeRun(Init(rt, flags), run, w, l);
  }

  // Work queued on two CPUs.

  /** Claim, queue on a CPU, and run there up to the callback. */
  function Round(k: Caller, w: Work, l: List): seq<Action> {
    [Claim(k, w), Enqueue(k, l.cpu), TakeAll(l), Load(l), StoreAndCall(l)]
  }

  /** What that leads to: the callback is running on the CPU, and the flag word says BUSY but not PENDING. */
  ghost predicate Served(s: State, t: State, k: Caller, w: Work, l: List) {
    && w in s.flags && Known(t, w) && k !in t.holders && t.rt == s.rt
    && t.flags[w] == s.flags[w].(pending := false, busy := true, csd := true)
    && RunnerOf(t, l) == Runner([w], Pc.Calling(t.flags[w]))
    && forall m | m != l :: RunnerOf(t, m) == RunnerOf(s, m) && ListOf(t, m) == ListOf(s, m)
  }

  lemma RoundFirst(s: State, k: Caller, w: Work, l: List) returns (t: State)
    requires Known(s, w) && !s.flags[w].pending && k !in s.holders && Target(s, w, l.cpu) == l && ListOf(s, l) == []
    ensures Exec(s, [Claim(k, w), Enqueue(k, l.cpu)]) == Some(t)
    ensures Known(t, w) && k !in t.holders && t.rt == s.rt && ListOf(t, l) == [w]
    ensures t.flags[w] == s.flags[w].(pending := true, busy := true, csd := true)
    ensures forall m :: RunnerOf(t, m) == RunnerOf(s, m)
    ensures forall m | m != l :: ListOf(t, m) == ListOf(s, m)
  {
    var u := ClaimStep(s, k, w);
    t := EnqueueStep(u, k, l.cpu);
    assert [Claim(k, w), Enqueue(k, l.cpu)][1..] == [Enqueue(k, l.cpu)];
    assert Exec(u, [Enqueue(k, l.cpu)]) == Some(t);
  }

  lemma RoundThen(s: State, w: Work, l: List) returns (t: State)
    requires Known(s, w) && ListOf(s, l) == [w] && RunnerOf(s, l) == Runner([], Between)
    ensures Exec(s, [TakeAll(l), Load(l), StoreAndCall(l)]) == Some(t)
    ensures Known(t, w) && t.holders == s.holders && t.rt == s.rt && t.flags[w] == s.flags[w].(pending := false)
    ensures RunnerOf(t, l) == Runner([w], Pc.Calling(t.flags[w]))
    ensures forall m | m != l :: RunnerOf(t, m) == RunnerOf(s, m) && ListOf(t, m) == ListOf(s, m)
  {
    var steps := [TakeAll(l), Load(l), StoreAndCall(l)];
    var u := TakeStep(s, l);
    var v := Next(u, Load(l)).value;
    t := StoreStep(v, l, w, RunnerOf(v, l).pc.flags);
    assert Exec(v, [StoreAndCall(l)]) == Some(t);
    assert steps[1..] == [Load(l), StoreAndCall(l)] && steps[1..][1..] == [StoreAndCall(l)];
    assert Exec(u, [Load(l), StoreAndCall(l)]) == Exec(v, [StoreAndCall(l)]);
  }

  lemma {:induction false} ExecConcat(s: State, a: seq<Action>, b: seq<Action>)
    ensures Exec(s, a + b) == (if Exec(s, a).None? then None else Exec(Exec(s, a).value, b))
    decreases |a|
  {
    if a == [] {
      assert a + b == b;
    } else {
      assert (a + b)[0] == a[0] && (a + b)[1..] == a[1..] + b;
      if Next(s, a[0]).Some? { ExecConcat(Next(s, a[0]).value, a[1..], b); }
    }
  }

  lemma RoundRuns(s: State, k: Caller, w: Work, l: List) returns (t: State)
    requires Known(s, w) && !s.flags[w].pending && k !in s.holders && Target(s, w, l.cpu) == l
    requires ListOf(s, l) == [] && RunnerOf(s, l) == Runner([], Between)
    ensures Exec(s, Round(k, w, l)) == Some(t) && Served(s, t, k, w, l)
  {
    var u := RoundFirst(s, k, w, l);
    t := RoundThen(u, w, l);
    var a, b := [Claim(k, w), Enqueue(k, l.cpu)], [TakeAll(l), Load(l), StoreAndCall(l)];
    ExecConcat(s, a, b);
    assert a + b == Round(k, w, l);
  }

  /** Both callbacks are running, with the same flag word remembered. */
  ghost predicate Overlapping(s: State, w: Work, m: List, l: List) {
    && m != l && Known(s, w)
    && RunnerOf(s, m) == Runner([w], Pc.Calling(s.flags[w])) && RunnerOf(s, l) == Runner([w], Pc.Calling(s.flags[w]))
  }

  lemma TwoRounds(i: State, w: Work, m: List, l: List) returns (u: State)
    requires Known(i, w) && !i.flags[w].pending && i.holders == map[] && i.lists == map[] && i.runners == map[]
    requires m.cpu != l.cpu && Target(i, w, m.cpu) == m && Target(i, w, l.cpu) == l
    ensures Exec(i, Round(0, w, m) + Round(0, w, l)) == Some(u) && Overlapping(u, w, m, l)
  {
    var t := RoundRuns(i, 0, w, m);
    u := RoundRuns(t, 0, w, l);
    ExecConcat(i, Round(0, w, m), Round(0, w, l));
    assert RunnerOf(u, m) == RunnerOf(t, m);
  }

  lemma FirstReleases(u: State, w: Work, m: List, l: List) returns (s: State)
    requires Overlapping(u, w, m, l)
    ensures Exec(u, [Release(m)]) == Some(s) && w in s.flags && !s.flags[w].busy && InCallback(s, l, w)
  {
    s := ReleaseStep(u, m, w, u.flags[w]);
    assert RunnerOf(s, l) == RunnerOf(u, l);
  }

  /**
   On two CPUs the callback can overlap itself, and then the first to finish clears BUSY while the
   other is still running: the compare-exchange meets the very word it stored.
   */
  lemma BusyClearedEarly(rt: bool, flags: map<Work, Flags>, w: Work, c: Cpu, d: Cpu) returns (run: seq<Action>, s: State, l: List)
    requires Unclaimed(flags) && w in flags && c != d
    ensures Exec(Init(rt, flags), run) == Some(s) && w in s.flags && !s.flags[w].busy && InCallback(s, l, w)
    ensures forall i | 0 <= i < |run| && run[i].Enqueue? :: run[i].cpu == c || run[i].cpu == d
  {
    var i := Init(rt, flags);
    var m := Target(i, w, c);
    l := Target(i, w, d);
    var u := TwoRounds(i, w, m, l);
    s := FirstReleases(u, w, m, l);
    run := Round(0, w, m) + Round(0, w, l) + [Release(m)];
    ExecConcat(i, Round(0, w, m) + Round(0, w, l), [Release(m)]);
  }

  /** Throughout the run w is queued only on these CPUs. */
  ghost predicate QueuedWithin(s: State, run: seq<Action>, w: Work, cpus: set<Cpu>)
    decreases |run|
  {
    run == []
    || (&& Next(s, run[0]).Some?
        && (run[0].Enqueue? && run[0].k in s.holders && s.holders[run[0].k] == w ==> run[0].cpu in cpus)
        && QueuedWithin(Next(s, run[0]).value, run[1..], w, cpus))
  }

  lemma {:induction false} WithinOne(s: State, run: seq<Action>, w: Work, cpus: set<Cpu>, cpu: Cpu)
    requires QueuedWithin(s, run, w, cpus) && forall c | c in cpus :: c == cpu
    ensures QueuedOn(s, run, w, cpu)
    decreases |run|
  {
    hide Next;
    if run != [] { WithinOne(Next(s, run[0]).value, run[1..], w, cpus, cpu); }
  }

  lemma {:induction false} WithinAll(s: State, run: seq<Action>, w: Work, cpus: set<Cpu>)
    requires Exec(s, run).Some? && forall i | 0 <= i < |run| && run[i].Enqueue? :: run[i].cpu in cpus
    ensures QueuedWithin(s, run, w, cpus)
    decreases |run|
  {
    hide Next;
    if run != [] { WithinAll(Next(s, run[0]).value, run[1..], w, cpus); }
  }

  /** BUSY clear means that the item is neither claimed, queued nor running anywhere. */
  ghost predicate Reliable(s: State, w: Work) {
    w in s.flags && (!s.flags[w].busy ==> w in s.places && s.places[w] == Free && forall l :: !InCallback(s, l, w))
  }

  ghost predicate AlwaysReliable(rt: bool, flags: map<Work, Flags>, w: Work, cpus: set<Cpu>) {
    forall run | QueuedWithin(Init(rt, flags), run, w, cpus) ::
      Exec(Init(rt, flags), run).Some? && Reliable(Exec(Init(rt, flags), run).value, w)
  }

  lemma OneCpuReliable(rt: bool, flags: map<Work, Flags>, w: Work, cpus: set<Cpu>, cpu: Cpu, run: seq<Action>)
    requires Unclaimed(flags) && w in flags && QueuedWithin(Init(rt, flags), run, w, cpus) && forall c | c in cpus :: c == cpu
    ensures Exec(Init(rt, flags), run).Some? && Reliable(Exec(Init(rt, flags), run).value, w)
  {
    var i := Init(rt, flags);
    WithinOne(i, run, w, cpus, cpu);
    var l := BusyMeansInUse(rt, flags, run, w, cpu);
    InitOk(rt, flags);
    RunKeeps(i, run);
    assert WordOk(Exec(i, run).value, w);
  }

  lemma Unreliable(s: State, w: Work, l: List)
    requires w in s.flags && !s.flags[w].busy && InCallback(s, l, w)
    ensures !Reliable(s, w)
  {
  }

  /** BUSY can be relied on in every run exactly if the item is queued on no more than one CPU. */
  lemma BusyExact(rt: bool, flags: map<Work, Flags>, w: Work, cpus: set<Cpu>)
    requires Unclaimed(flags) && w in flags
    ensures AlwaysReliable(rt, flags, w, cpus) <==> forall c, d | c in cpus && d in cpus :: c == d
  {
    if c, d :| c in cpus && d in cpus && c != d {
      var run, s, l := BusyClearedEarly(rt, flags, w, c, d);
      hide Exec, Reliable, QueuedWithin;
      WithinAll(Init(rt, flags), run, w, cpus);
      Unreliable(s, w, l);
    } else {
      var cpu := if c :| c in cpus then c else 0;
      forall run | QueuedWithin(Init(rt, flags), run, w, cpus)
        ensures Exec(Init(rt, flags), run).Some? && Reliable(Exec(Init(rt, flags), run).value, w)
      {
        OneCpuReliable(rt, flags, w, cpus, cpu, run);
      }
    }
  }
}
