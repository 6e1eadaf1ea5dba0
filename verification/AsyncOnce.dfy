/** How often things happen in a run of the async machine: every function runs once, and cookies are handed out one by one. */
module AsyncOnce {
  import opened Wrappers
  import opened Async

  /** The cookies handed out, to functions that were queued and to those run at once. */
  function Cookies(run: seq<Action>): nat {
    if run == [] then 0
    else
      var last := run[|run| - 1];
      Cookies(run[..|run| - 1]) + if last.Schedule? || last.RunSynchronously? then 1 else 0
  }

  /** An entry was started, returned and was removed as often as its phase says: once each at most, and in this order. */
  ghost predicate OnceEach(s: State, run: seq<Action>, c: nat) {
    var started, returned, removed := multiset(run)[Start(c)], multiset(run)[Return(c)], multiset(run)[Remove(c)];
    if c !in s.entries then started == 0 && returned == 0 && removed == 0
    else
      match s.entries[c].phase
      case Queued => started == 0 && returned == 0 && removed == 0
      case Running => started == 1 && returned == 0 && removed == 0
      case Cleared => started == 1 && returned == 0 && removed == 0
      case Finished => started == 1 && returned == 1 && removed == 0
      case Gone => started == 1 && returned == 1 && removed == 1
  }

  lemma ExecLast(s: State, run: seq<Action>) returns (before: State)
    requires run != [] && Exec(s, run).Some?
    ensures Exec(s, run[..|run| - 1]) == Some(before) && Next(before, run[|run| - 1]) == Exec(s, run)
  {
    var init, last := run[..|run| - 1], run[|run| - 1];
    assert run == init + [last];
    ExecConcat(s, init, [last]);
    before := Exec(s, init).value;
    assert [last][1..] == [];
  }

  lemma OnceStep(s: State, run: seq<Action>, a: Action, t: State, c: nat)
    requires OnceEach(s, run, c) && Next(s, a) == Some(t) && s.nextCookie !in s.entries
    ensures OnceEach(t, run + [a], c)
  {
    assert multiset(run + [a]) == multiset(run) + multiset{a};
  }

  lemma CookieStep(s: State, a: Action, t: State)
    requires Next(s, a) == Some(t)
    ensures t.nextCookie == s.nextCookie + if a.Schedule? || a.RunSynchronously? then 1 else 0
  {
  }

  lemma CookieUnused(registered: set<Domain>, run: seq<Action>, s: State)
    requires Exec(Init(registered), run) == Some(s)
    ensures s.nextCookie !in s.entries
  {
    InitOk(registered);
    RunKeeps(Init(registered), run);
  }

  /** In every run: every entry once through its phases, and the next cookie one behind those handed out. */
  lemma {:induction false} RunsOnce(registered: set<Domain>, run: seq<Action>)
    requires Exec(Init(registered), run).Some?
    ensures var s := Exec(Init(registered), run).value;
            s.nextCookie == 1 + Cookies(run) && forall c: nat :: OnceEach(s, run, c)
    decreases |run|
  {
    if run != [] {
      var init, last := run[..|run| - 1], run[|run| - 1];
      var before := ExecLast(Init(registered), run);
      var after := Exec(Init(registered), run).value;
      hide Next, Exec, OnceEach;
      RunsOnce(registered, init);
      CookieUnused(registered, init, before);
      CookieStep(before, last, after);
      assert run == init + [last];
      forall c: nat ensures OnceEach(after, run, c) {
        OnceStep(before, init, last, after, c);
      }
    }
  }
}
