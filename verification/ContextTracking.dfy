/**
 RCU context tracking on one CPU (kernel/context_tracking.c).

 Three per-CPU words say whether RCU is watching: the process nesting count, the irq/NMI nesting
 count and a state word whose low two bits hold the context and whose bit 2 is RCU_DYNTICKS_IDX.
 Every access to them is one step, and at every boundary between two steps any number of complete
 handlers may run, each of them interruptible in the same way.
 */
module ContextTracking {

  const CONTEXT_KERNEL: int := 0
  const CONTEXT_IDLE: int := 1
  const RCU_DYNTICKS_IDX: int := 4
  const ATOMIC_RANGE: int := 0x1_0000_0000
  // LONG_MAX / 2 + 1
  const DYNTICK_IRQ_NONIDLE: int := 0x4000_0000_0000_0000

  /** Handlers that arrive, one after the other, at a single step boundary. */
  datatype Handlers = NoHandler | Then(first: Handler, others: Handlers)

  /** What arrives at successive step boundaries; past its end nothing arrives. */
  datatype Plan = Quiet | At(here: Handlers, later: Plan)

  /** A handler with `body` steps between ct_nmi_enter and ct_nmi_exit, interrupted as `plan` says. */
  datatype Handler = Handler(body: nat, plan: Plan)

  datatype Event =
    | Body(watching: bool)
    | Exit(nesting: int, foundIdle: bool, nestingBefore: int)

  /** RCU watched in every handler body; nesting 1 at an exit iff that handler itself found RCU idle. */
  predicate Fine(e: Event) {
    match e
    case Body(watching) => watching
    case Exit(nesting, foundIdle, before) =>
      && (nesting == 1 <==> foundIdle)
      && (foundIdle ==> before == 0)
      && (!foundIdle ==> nesting == before + 2)
  }

  lemma RemainderIs(n: int, q: int, r: int)
    requires n == 4 * q + r && 0 <= r < 4
    ensures n % 4 == r
  {
  }

  lemma LowBits(state: int)
    ensures state % 4 == if state % 8 >= 4 then state % 8 - 4 else state % 8
  {
    var q, r := state / 8, state % 8;
    assert state == 8 * q + r;
    if r >= 4 {
      RemainderIs(state, 2 * q + 1, r - 4);
    } else {
      RemainderIs(state, 2 * q, r);
    }
  }

  predicate AllFine(log: seq<Event>) {
    forall e | e in log :: Fine(e)
  }

  function StateInc(state: int, offset: int): int {
    (state + offset) % ATOMIC_RANGE
  }

  lemma SameRemainder(x: int, y: int, k: int)
    requires x == y + 8 * k
    ensures x % 8 == y % 8
  {
  }

  lemma StateIncBits(state: int, offset: int)
    requires 0 <= state < ATOMIC_RANGE
    ensures 0 <= StateInc(state, offset) < ATOMIC_RANGE
    ensures StateInc(state, offset) % 8 == (state % 8 + offset) % 8
  {
    var q := (state + offset) / ATOMIC_RANGE;
    var r := StateInc(state, offset);
    assert r == state + offset - 8 * (0x2000_0000 * q);
    SameRemainder(r, state % 8 + offset, state / 8 - 0x2000_0000 * q);
  }

  /** How many body steps and how many exits of handlers a log holds. */
  function Bodies(log: seq<Event>): nat {
    if log == [] then 0 else Bodies(log[..|log| - 1]) + if log[|log| - 1].Body? then 1 else 0
  }

  function Exits(log: seq<Event>): nat {
    if log == [] then 0 else Exits(log[..|log| - 1]) + if log[|log| - 1].Exit? then 1 else 0
  }

  class Cpu {
    var dynticksNesting: int
    var nmiNesting: int
    var state: int
    var log: seq<Event>
    // How many WARN_ON conditions have held.
    var warnings: nat
    // The handlers that have arrived, and the steps of their bodies.
    var handlers: nat
    var bodySteps: nat

    constructor ()
      ensures InKernel() && log == [] && warnings == 0 && Pending() == 0 && PendingSteps() == 0
    {
      dynticksNesting := 1;
      nmiNesting := DYNTICK_IRQ_NONIDLE;
      state := RCU_DYNTICKS_IDX;
      log := [];
      warnings := 0;
      handlers := 0;
      bodySteps := 0;
    }

    /** Handlers that have not come to their exit, and body steps that have not been logged. */
    ghost function Pending(): int
      reads this`handlers, this`log
    {
      handlers - Exits(log)
    }

    ghost function PendingSteps(): int
      reads this`bodySteps, this`log
    {
      bodySteps - Bodies(log)
    }

    // rcu_dynticks_curr_cpu_in_eqs() negated: the RCU_DYNTICKS_IDX bit of the state word.
    predicate Watching()
      reads this`state
    {
      state % 8 >= RCU_DYNTICKS_IDX
    }

    // The context bits of the state word, state & CT_STATE_MASK.
    function Context(): (c: int)
      reads this`state
      ensures c == state % 4
    {
      LowBits(state);
      if Watching() then state % 8 - RCU_DYNTICKS_IDX else state % 8
    }

    /** Holds at every step boundary of every function here. */
    ghost predicate Valid()
      reads this
    {
      && 0 <= state < ATOMIC_RANGE
      && 0 <= nmiNesting
      && (!Watching() ==> nmiNesting == 0)
      && AllFine(log)
    }

    ghost predicate InKernel()
      reads this
    {
      && Valid() && Watching() && Context() == CONTEXT_KERNEL
      && dynticksNesting == 1 && nmiNesting == DYNTICK_IRQ_NONIDLE
    }

    ghost predicate Quiescent(context: int)
      reads this
    {
      && Valid() && !Watching() && Context() == context
      && dynticksNesting == 0 && nmiNesting == 0
    }

    /** Both counters, the watched bit and the context bits are as before, and nothing was warned about. */
    twostate predicate Restored()
      reads this
    {
      && dynticksNesting == old(dynticksNesting)
      && nmiNesting == old(nmiNesting)
      && state % 8 == old(state) % 8
      && warnings == old(warnings)
    }

    /** The log grew: by the exit of every handler that arrived and `exits` more, and so for the steps of bodies. */
    twostate predicate Logged(exits: nat, bodies: nat)
      reads this
    {
      && old(log) <= log && old(handlers) <= handlers && old(bodySteps) <= bodySteps
      && Pending() == old(Pending()) - exits && PendingSteps() == old(PendingSteps()) - bodies
    }

    method Note(e: Event)
      requires Fine(e)
      modifies this`log
      ensures AllFine(old(log)) ==> AllFine(log)
      ensures log == old(log) + [e] && Logged(if e.Exit? then 1 else 0, if e.Body? then 1 else 0)
    {
      log := log + [e];
      assert log[..|log| - 1] == old(log);
    }

    method WarnOn(condition: bool)
      modifies this`warnings
      ensures warnings == old(warnings) + if condition then 1 else 0
    {
      if condition {
        warnings := warnings + 1;
      }
    }

    /** Everything that arrives at one boundary. */
    method Interrupted(arrivals: Handlers)
      requires Valid()
      modifies this
      ensures Valid() && Restored() && Logged(0, 0)
      decreases arrivals
    {
      match arrivals
      case NoHandler =>
      case Then(first, others) =>
        Nmi(first);
        Interrupted(others);
    }

    /** One step boundary of a running function. */
    method Boundary(plan: Plan) returns (later: Plan)
      requires Valid()
      modifies this
      ensures Valid() && Restored() && Logged(0, 0)
      ensures plan.At? ==> later == plan.later
      ensures plan.Quiet? ==> later == plan
      decreases plan, 0
    {
      later := plan;
      if plan.At? {
        Interrupted(plan.here);
        later := plan.later;
      }
    }

    /** A complete handler: ct_nmi_enter, its body, ct_nmi_exit. */
    method Nmi(h: Handler)
      requires Valid()
      modifies this
      ensures Valid() && Restored() && Logged(0, 0)
      ensures handlers > old(handlers) && bodySteps >= old(bodySteps) + h.body
      decreases h
    {
      handlers, bodySteps := handlers + 1, bodySteps + h.body;
      var before, foundIdle, plan := NmiEnter(h.plan);
      plan := NmiBody(h.body, plan);
      NmiExit(plan, foundIdle, before);
    }

    method KernelEnterState(offset: int)
      requires 0 <= state < ATOMIC_RANGE
      modifies this`state, this`warnings
      ensures state == StateInc(old(state), offset)
      ensures warnings == old(warnings) + if Watching() then 0 else 1
      ensures 0 <= state < ATOMIC_RANGE && state % 8 == (old(state) % 8 + offset) % 8
    {
      StateIncBits(state, offset);
      state := StateInc(state, offset);
      WarnOn(!Watching());
    }

    method NmiEnter(plan0: Plan) returns (before: int, foundIdle: bool, plan: Plan)
      requires Valid()
      modifies this
      ensures Valid() && Watching() && Logged(0, 0) && warnings == old(warnings)
      ensures dynticksNesting == old(dynticksNesting)
      ensures Context() == old(Context())
      ensures before == old(nmiNesting) && foundIdle == !old(Watching())
      ensures nmiNesting == before + if foundIdle then 1 else 2
      ensures plan == plan0 || plan < plan0
      decreases plan0, 1
    {
      hide StateInc, AllFine, Exits, Bodies;
      plan := plan0;
      before := nmiNesting;
      var incby := 2;
      WarnOn(nmiNesting < 0);
      plan := Boundary(plan);
      foundIdle := !Watching();
      if foundIdle {
        plan := Boundary(plan);
        KernelEnterState(RCU_DYNTICKS_IDX);
        incby := 1;
      }
      plan := Boundary(plan);
      var nesting := nmiNesting;
      plan := Boundary(plan);
      nmiNesting := nesting + incby;
      plan := Boundary(plan);
    }

    method NmiBody(steps: nat, plan0: Plan) returns (plan: Plan)
      requires Valid() && Watching()
      modifies this
      ensures Valid() && Restored() && Logged(0, steps)
      ensures plan == plan0 || plan < plan0
      decreases plan0, 1 + steps
    {
      plan := plan0;
      if steps > 0 {
        Note(Body(Watching()));
        plan := Boundary(plan);
        plan := NmiBody(steps - 1, plan);
      }
    }

    method KernelExitState(offset: int)
      requires Valid() && Watching()
      requires offset % 8 >= RCU_DYNTICKS_IDX
      modifies this`state, this`warnings
      ensures state == StateInc(old(state), offset)
      ensures warnings == old(warnings) + if Watching() then 1 else 0
      ensures 0 <= state < ATOMIC_RANGE && state % 8 == (old(state) % 8 + offset) % 8
    {
      StateIncBits(state, offset);
      state := StateInc(state, offset);
      WarnOn(Watching());
    }

    /** The end of ct_nmi_exit that leaves RCU watching no longer. */
    method NmiExitLast(plan0: Plan)
      requires Valid() && Watching() && nmiNesting == 1
      modifies this
      ensures Valid() && Logged(0, 0) && warnings == old(warnings)
      ensures dynticksNesting == old(dynticksNesting) && nmiNesting == 0
      ensures Context() == old(Context()) && !Watching()
      decreases plan0, 1
    {
      hide StateInc, AllFine, Exits, Bodies;
      var plan := Boundary(plan0);
      nmiNesting := 0;
      plan := Boundary(plan);
      KernelExitState(RCU_DYNTICKS_IDX);
      plan := Boundary(plan);
    }

    method NmiExit(plan0: Plan, foundIdle: bool, before: int)
      requires Valid() && Watching()
      requires nmiNesting == before + if foundIdle then 1 else 2
      requires 0 <= before && (foundIdle ==> before == 0)
      modifies this
      ensures Valid() && Logged(1, 0) && warnings == old(warnings)
      ensures dynticksNesting == old(dynticksNesting) && nmiNesting == before
      ensures Context() == old(Context()) && Watching() == !foundIdle
      decreases plan0, 2
    {
      hide StateInc, AllFine, Exits, Bodies;
      var plan := plan0;
      WarnOn(nmiNesting <= 0);
      plan := Boundary(plan);
      WarnOn(!Watching());
      plan := Boundary(plan);
      var nesting := nmiNesting;
      Note(Exit(nesting, foundIdle, before));
      if nesting != 1 {
        plan := Boundary(plan);
        nesting := nmiNesting;
        plan := Boundary(plan);
        nmiNesting := nesting - 2;
        plan := Boundary(plan);
        return;
      }
      NmiExitLast(plan);
    }

    /** The end of ct_kernel_exit at the last level of nesting. */
    method KernelExitLast(context: int, plan0: Plan) returns (plan: Plan)
      requires Valid() && Watching() && Context() == CONTEXT_KERNEL && nmiNesting == 0
      requires 0 < context < RCU_DYNTICKS_IDX
      modifies this
      ensures Valid() && Logged(0, 0) && nmiNesting == 0 && warnings == old(warnings)
      ensures dynticksNesting == 0 && !Watching() && Context() == context
    {
      hide StateInc, AllFine, Exits, Bodies;
      plan := Boundary(plan0);
      dynticksNesting := 0;
      plan := Boundary(plan);
      KernelExitState(RCU_DYNTICKS_IDX + context);
      plan := Boundary(plan);
    }

    /**
     ct_kernel_exit: into an extended quiescent state in `context`, or one level less of nesting. It warns about an NMI
     nesting that is not at its mark, as after an earlier exit that was not the last, and about a nesting of zero.
     */
    method KernelExit(context: int, plan0: Plan) returns (plan: Plan)
      requires Valid() && Watching() && Context() == CONTEXT_KERNEL
      requires 0 < context < RCU_DYNTICKS_IDX
      modifies this
      ensures Valid() && Logged(0, 0) && nmiNesting == 0
      ensures warnings == old(warnings) + (if old(nmiNesting) != DYNTICK_IRQ_NONIDLE then 1 else 0)
                        + (if old(dynticksNesting) == 0 then 1 else 0)
      ensures dynticksNesting == old(dynticksNesting) - 1
      ensures Watching() <==> old(dynticksNesting) != 1
      ensures Context() == if Watching() then CONTEXT_KERNEL else context
    {
      hide AllFine, Exits, Bodies;
      plan := plan0;
      WarnOn(nmiNesting != DYNTICK_IRQ_NONIDLE);
      plan := Boundary(plan);
      nmiNesting := 0;
      plan := Boundary(plan);
      WarnOn(dynticksNesting == 0);
      plan := Boundary(plan);
      if dynticksNesting != 1 {
        plan := Boundary(plan);
        var nesting := dynticksNesting;
        plan := Boundary(plan);
        dynticksNesting := nesting - 1;
        plan := Boundary(plan);
        return;
      }
      plan := KernelExitLast(context, plan);
    }

    /** The end of ct_kernel_enter at the first level of nesting. */
    method KernelEnterFirst(context: int, plan0: Plan) returns (plan: Plan)
      requires Quiescent(context) && 0 < context < RCU_DYNTICKS_IDX
      modifies this
      ensures InKernel() && Logged(0, 0) && warnings == old(warnings)
    {
      hide StateInc, AllFine, Exits, Bodies;
      KernelEnterState(RCU_DYNTICKS_IDX - context);
      plan := Boundary(plan0);
      dynticksNesting := 1;
      plan := Boundary(plan);
      WarnOn(nmiNesting != 0);
      plan := Boundary(plan);
      nmiNesting := DYNTICK_IRQ_NONIDLE;
      plan := Boundary(plan);
    }

    /** ct_kernel_enter: back from `context`, or one more level of nesting. */
    method KernelEnter(context: int, plan0: Plan) returns (plan: Plan)
      requires Valid() && 0 < context < RCU_DYNTICKS_IDX
      requires dynticksNesting == 0 ==> Quiescent(context)
      modifies this
      ensures Valid() && Logged(0, 0)
      ensures warnings == old(warnings) + if old(dynticksNesting) < 0 then 1 else 0
      ensures dynticksNesting == old(dynticksNesting) + 1
      ensures if old(dynticksNesting) == 0 then InKernel()
              else nmiNesting == old(nmiNesting) && state % 8 == old(state) % 8
    {
      hide StateInc, AllFine, Exits, Bodies;
      plan := Boundary(plan0);
      var oldval := dynticksNesting;
      WarnOn(oldval < 0);
      plan := Boundary(plan);
      if oldval != 0 {
        var nesting := dynticksNesting;
        plan := Boundary(plan);
        dynticksNesting := nesting + 1;
        plan := Boundary(plan);
        return;
      }
      plan := KernelEnterFirst(context, plan);
    }

    /** Any number of idle periods, each interrupted at will on the way in, inside and on the way out. */
    method IdleLoop(periods: seq<Plan>)
      requires InKernel()
      modifies this
      ensures InKernel() && Logged(0, 0) && warnings == old(warnings)
    {
      for i := 0 to |periods|
        invariant InKernel() && Logged(0, 0) && warnings == old(warnings)
      {
        var plan := KernelExit(CONTEXT_IDLE, periods[i]);
        plan := Boundary(plan);
        plan := KernelEnter(CONTEXT_IDLE, plan);
      }
    }
  }
}
