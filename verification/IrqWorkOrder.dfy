/** Which list of kernel/irq_work.c an item goes to, told from its flag bits, and the order in which items run. */
module IrqWorkOrder {
  import opened Wrappers
  import opened IrqWork

  /** Not LAZY, and under PREEMPT_RT marked HARD_IRQ: the item is run from the interrupt. */
  predicate Urgent(rt: bool, f: Flags) {
    !f.lazy && (rt ==> f.hard)
  }

  /** This step links item w into list l. */
  predicate Links(s: State, a: Action, w: Work, l: List) {
    && a.Enqueue? && a.k in s.holders && s.holders[a.k] == w && w in s.flags
    && l == if Urgent(s.rt, s.flags[w]) then Raised(a.cpu) else Lazy(a.cpu)
  }

  /** Queueing puts the item first on the list that its bits say, and leaves every other list alone. */
  lemma EnqueueMeans(s: State, k: Caller, cpu: Cpu)
    requires Next(s, Enqueue(k, cpu)).Some?
    ensures var t, w := Next(s, Enqueue(k, cpu)).value, s.holders[k];
            && (Urgent(s.rt, s.flags[w]) ==>
                  ListOf(t, Raised(cpu)) == [w] + ListOf(s, Raised(cpu)) && ListOf(t, Lazy(cpu)) == ListOf(s, Lazy(cpu)))
            && (!Urgent(s.rt, s.flags[w]) ==>
                  ListOf(t, Lazy(cpu)) == [w] + ListOf(s, Lazy(cpu)) && ListOf(t, Raised(cpu)) == ListOf(s, Raised(cpu)))
            && (forall l: List | l.cpu != cpu :: ListOf(t, l) == ListOf(s, l))
            && k !in t.holders && t.flags == s.flags
  {
  }

  /** A list changes when an item is linked into it and when it is taken, and at no other time. */
  lemma ListStep(s: State, a: Action, l: List)
    requires Next(s, a).Some?
    ensures var t := Next(s, a).value;
            ListOf(t, l) == if a == TakeAll(l) then []
                            else if a.Enqueue? && Links(s, a, s.holders[a.k], l) then [s.holders[a.k]] + ListOf(s, l)
                            else ListOf(s, l)
  {
  }

  /** The items linked into a list in a run, the latest first. */
  function Linked(s: State, run: seq<Action>, l: List): seq<Work>
    requires Exec(s, run).Some?
    decreases |run|
  {
    if run == [] then []
    else
      var a := run[0];
      Linked(Next(s, a).value, run[1..], l)
      + (if a.Enqueue? && Links(s, a, s.holders[a.k], l) then [s.holders[a.k]] else [])
  }

  /** A list that is not taken holds the items linked into it, the latest first, before those it held already. */
  lemma {:induction false} LatestFirst(s: State, run: seq<Action>, l: List)
    requires Exec(s, run).Some? && TakeAll(l) !in run
    ensures ListOf(Exec(s, run).value, l) == Linked(s, run, l) + ListOf(s, l)
    decreases |run|
  {
    if run != [] {
      hide Next, Links;
      var a := run[0];
      ListStep(s, a, l);
      LatestFirst(Next(s, a).value, run[1..], l);
    }
  }

  /** The items whose callbacks a list's runner starts in a run, in order. */
  function Started(s: State, run: seq<Action>, l: List): seq<Work>
    requires Exec(s, run).Some?
    decreases |run|
  {
    if run == [] then []
    else
      var a := run[0];
      (if a == StoreAndCall(l) && RunnerOf(s, l).chain != [] then [RunnerOf(s, l).chain[0]] else [])
      + Started(Next(s, a).value, run[1..], l)
  }

  /** All that is taken off a list in a run, one taking after the other. */
  function Taken(s: State, run: seq<Action>, l: List): seq<Work>
    requires Exec(s, run).Some?
    decreases |run|
  {
    if run == [] then []
    else (if run[0] == TakeAll(l) then ListOf(s, l) else []) + Taken(Next(s, run[0]).value, run[1..], l)
  }

  lemma RunnerStep(s: State, a: Action, l: List)
    requires Next(s, a).Some?
    ensures var r, r' := RunnerOf(s, l), RunnerOf(Next(s, a).value, l);
            if a == TakeAll(l) then Waiting(r) == [] && Waiting(r') == ListOf(s, l)
            else if a == StoreAndCall(l) then r.chain != [] && Waiting(r) == [r.chain[0]] + Waiting(r')
            else Waiting(r') == Waiting(r)
  {
  }

  lemma Unfolded(s: State, run: seq<Action>, l: List)
    requires Exec(s, run).Some? && run != []
    ensures Next(s, run[0]).Some? && Exec(Next(s, run[0]).value, run[1..]) == Exec(s, run)
    ensures var a, t := run[0], Next(s, run[0]).value;
            && Taken(s, run, l) == (if a == TakeAll(l) then ListOf(s, l) else []) + Taken(t, run[1..], l)
            && Started(s, run, l)
               == (if a == StoreAndCall(l) && RunnerOf(s, l).chain != [] then [RunnerOf(s, l).chain[0]] else [])
                  + Started(t, run[1..], l)
  {
    hide Next, ListOf, RunnerOf;
  }

  lemma Balance(first: seq<Work>, started: seq<Work>, end: seq<Work>, now: seq<Work>, next: seq<Work>, got: seq<Work>, taken: seq<Work>)
    requires started + end == next + taken && first + next == now + got
    ensures first + started + end == now + (got + taken)
  {
    calc {
      first + started + end;
      first + (started + end);
      first + next + taken;
      now + (got + taken);
    }
  }

  /** Over any run: the callbacks started are the items taken, in the order of the list, up to those that still wait. */
  lemma {:induction false} RunInOrder(s: State, run: seq<Action>, l: List)
    requires Exec(s, run).Some?
    ensures Started(s, run, l) + Waiting(RunnerOf(Exec(s, run).value, l)) == Waiting(RunnerOf(s, l)) + Taken(s, run, l)
    decreases |run|
  {
    if run != [] {
      hide Next, Waiting, RunnerOf, Exec, Started, Taken;
      var a := run[0];
      Unfolded(s, run, l);
      var t := Next(s, a).value;
      RunnerStep(s, a, l);
      RunInOrder(t, run[1..], l);
      var first := if a == StoreAndCall(l) then [RunnerOf(s, l).chain[0]] else [];
      var got := if a == TakeAll(l) then ListOf(s, l) else [];
      var now, next, end := Waiting(RunnerOf(s, l)), Waiting(RunnerOf(t, l)), Waiting(RunnerOf(Exec(s, run).value, l));
      Balance(first, Started(t, run[1..], l), end, now, next, got, Taken(t, run[1..], l));
    }
  }

  /** So from the start, what has been called from a list and what waits in its runner is all that was ever taken off it. */
  lemma FromStart(rt: bool, flags: map<Work, Flags>, run: seq<Action>, l: List)
    requires Exec(Init(rt, flags), run).Some?
    ensures var s, t := Init(rt, flags), Exec(Init(rt, flags), run).value;
            Started(s, run, l) + Waiting(RunnerOf(t, l)) == Taken(s, run, l)
  {
    RunInOrder(Init(rt, flags), run, l);
  }

  lemma BitsStep(s: State, a: Action, w: Work)
    requires Inv(s) && Next(s, a).Some? && w in s.flags
    ensures var t := Next(s, a).value;
            w in t.flags && t.flags[w].lazy == s.flags[w].lazy && t.flags[w].hard == s.flags[w].hard && t.rt == s.rt
  {
    hide WordsOk, HolderOk, ListOk, Holds;
    if a.StoreAndCall? || a.Release? { assert RunnerOk(s, a.l); }
  }

  /** The LAZY and HARD_IRQ bits of an item never change. */
  lemma {:induction false} BitsStay(s: State, run: seq<Action>, w: Work)
    requires Inv(s) && Exec(s, run).Some? && w in s.flags
    ensures var t := Exec(s, run).value;
            w in t.flags && t.flags[w].lazy == s.flags[w].lazy && t.flags[w].hard == s.flags[w].hard && t.rt == s.rt
    decreases |run|
  {
    if run != [] {
      var a := run[0];
      NextKeeps(s, a);
      BitsStep(s, a, w);
      hide Inv, Next;
      BitsStay(Next(s, a).value, run[1..], w);
    }
  }
}
