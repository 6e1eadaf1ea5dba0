/**
 walk_process_tree of kernel/fork.c: the walk without a stack over thread groups and the children of
 their threads, against the recursive walk it stands for.
 */
module ProcessTree {

  type Task = nat

  /** The links between threads: a leader's thread list, each thread's list of child leaders, and the way back up. */
  datatype Forest = Forest(
    threads: map<Task, seq<Task>>,
    children: map<Task, seq<Task>>,
    groupLeader: map<Task, Task>,
    realParent: map<Task, Task>)

  /** What the visitor answers, given the sequence it was called with before. */
  type Visitor = (seq<Task>, Task) -> int

  datatype Result = Result(calls: seq<Task>, stopped: bool)

  ghost predicate Distinct(s: seq<Task>) {
    forall i, j | 0 <= i < j < |s| :: s[i] != s[j]
  }

  predicate IsThread(f: Forest, t: Task, g: Task) {
    t in f.children && t in f.groupLeader && f.groupLeader[t] == g
  }

  predicate IsChild(f: Forest, height: map<Task, nat>, c: Task, t: Task) {
    && c in f.threads && c in f.realParent && f.realParent[c] == t
    && t in f.groupLeader && f.groupLeader[t] in f.threads && t in f.threads[f.groupLeader[t]]
    && c in height && f.groupLeader[t] in height && height[c] < height[f.groupLeader[t]]
  }

  /** The links agree with each other, and a height that drops from a group to its child groups shows there is no cycle. */
  ghost predicate Consistent(f: Forest, height: map<Task, nat>) {
    && (forall g | g in f.threads :: g in height && Distinct(f.threads[g]))
    && (forall g, i | g in f.threads && 0 <= i < |f.threads[g]| :: IsThread(f, f.threads[g][i], g))
    && (forall t, i | t in f.children && 0 <= i < |f.children[t]| :: IsChild(f, height, f.children[t][i], t))
    && (forall t | t in f.children :: Distinct(f.children[t]))
  }

  // The recursive walk.

  ghost function WalkGroup(f: Forest, height: map<Task, nat>, visit: Visitor, g: Task, k: nat, calls: seq<Task>): Result
    requires Consistent(f, height) && g in f.threads && k <= |f.threads[g]|
    decreases height[g], 1, |f.threads[g]| - k
  {
    if k == |f.threads[g]| then Result(calls, false)
    else
      assert IsThread(f, f.threads[g][k], g);
      var r := WalkChildren(f, height, visit, g, f.threads[g][k], 0, calls);
      if r.stopped then r else WalkGroup(f, height, visit, g, k + 1, r.calls)
  }

  ghost function WalkChildren(f: Forest, height: map<Task, nat>, visit: Visitor, g: Task, t: Task, k: nat, calls: seq<Task>): Result
    requires Consistent(f, height) && g in f.threads && IsThread(f, t, g) && k <= |f.children[t]|
    decreases height[g], 0, |f.children[t]| - k
  {
    if k == |f.children[t]| then Result(calls, false)
    else
      var c := f.children[t][k];
      assert IsChild(f, height, c, t);
      var res := visit(calls, c);
      if res < 0 then Result(calls + [c], true)
      else
        var r := if res > 0 then WalkGroup(f, height, visit, c, 0, calls + [c]) else Result(calls + [c], false);
        if r.stopped then r else WalkChildren(f, height, visit, g, t, k + 1, r.calls)
  }

  // The cursor of the loop: a leader, a position in its thread list and one in that thread's list of children.

  predicate Cursor(f: Forest, g: Task, i: nat, j: nat) {
    && g in f.threads && i <= |f.threads[g]|
    && (i < |f.threads[g]| ==> f.threads[g][i] in f.children && j <= |f.children[f.threads[g][i]]|)
    && (i == |f.threads[g]| ==> j == 0)
  }

  /** Where in its list an element is; a list entry knows this by its own links. */
  function IndexOf(s: seq<Task>, t: Task): (i: nat)
    requires t in s
    ensures i < |s| && s[i] == t
    ensures forall k | 0 <= k < i :: s[k] != t
  {
    if s[0] == t then 0 else 1 + IndexOf(s[1..], t)
  }

  lemma IndexOfAt(s: seq<Task>, i: nat)
    requires i < |s| && Distinct(s)
    ensures s[i] in s && IndexOf(s, s[i]) == i
  {
    assert s[i] in s;
    var k := IndexOf(s, s[i]);
    assert s[k] == s[i];
  }

  ghost function FromCursor(f: Forest, height: map<Task, nat>, visit: Visitor, g: Task, i: nat, j: nat, calls: seq<Task>): Result
    requires Consistent(f, height) && Cursor(f, g, i, j)
  {
    if i == |f.threads[g]| then Result(calls, false)
    else
      assert IsThread(f, f.threads[g][i], g);
      var r := WalkChildren(f, height, visit, g, f.threads[g][i], j, calls);
      if r.stopped then r else WalkGroup(f, height, visit, g, i + 1, r.calls)
  }

  function Gap(height: map<Task, nat>, top: Task, g: Task): nat {
    if top in height && g in height && height[g] <= height[top] then height[top] - height[g] else 0
  }

  ghost predicate IsRealChild(f: Forest, height: map<Task, nat>, g: Task) {
    && g in f.realParent && f.realParent[g] in f.children && g in f.children[f.realParent[g]]
    && IsChild(f, height, g, f.realParent[g])
  }

  /** The group was reached from the top by going down. */
  ghost predicate Under(f: Forest, height: map<Task, nat>, top: Task, g: Task)
    requires Consistent(f, height) && top in f.threads
    decreases Gap(height, top, g)
  {
    g == top
    || (&& g in f.threads && height[g] < height[top] && IsRealChild(f, height, g)
        && height[f.groupLeader[f.realParent[g]]] <= height[top]
        && Under(f, height, top, f.groupLeader[f.realParent[g]]))
  }

  /** After a group is done: back up to its place among its siblings, and on from there. */
  ghost function Finish(f: Forest, height: map<Task, nat>, visit: Visitor, top: Task, g: Task, r: Result): Result
    requires Consistent(f, height) && top in f.threads && Under(f, height, top, g)
    decreases Gap(height, top, g)
  {
    if r.stopped || g == top then r
    else
      var t := f.realParent[g];
      var up := f.groupLeader[t];
      var i, j := IndexOf(f.threads[up], t), IndexOf(f.children[t], g);
      Finish(f, height, visit, top, up, FromCursor(f, height, visit, up, i, j + 1, r.calls))
  }

  // The same shapes count the steps the loop can still take at most.

  ghost function GroupSteps(f: Forest, height: map<Task, nat>, g: Task, k: nat): nat
    requires Consistent(f, height) && g in f.threads && k <= |f.threads[g]|
    decreases height[g], 1, |f.threads[g]| - k
  {
    if k == |f.threads[g]| then 1
    else
      assert IsThread(f, f.threads[g][k], g);
      ChildSteps(f, height, g, f.threads[g][k], 0) + GroupSteps(f, height, g, k + 1)
  }

  ghost function ChildSteps(f: Forest, height: map<Task, nat>, g: Task, t: Task, k: nat): nat
    requires Consistent(f, height) && g in f.threads && IsThread(f, t, g) && k <= |f.children[t]|
    decreases height[g], 0, |f.children[t]| - k
  {
    if k == |f.children[t]| then 1
    else
      assert IsChild(f, height, f.children[t][k], t);
      1 + GroupSteps(f, height, f.children[t][k], 0) + ChildSteps(f, height, g, t, k + 1)
  }

  ghost function CursorSteps(f: Forest, height: map<Task, nat>, g: Task, i: nat, j: nat): nat
    requires Consistent(f, height) && Cursor(f, g, i, j)
  {
    if i == |f.threads[g]| then 1
    else
      assert IsThread(f, f.threads[g][i], g);
      ChildSteps(f, height, g, f.threads[g][i], j) + GroupSteps(f, height, g, i + 1)
  }

  ghost function StepsLeft(f: Forest, height: map<Task, nat>, top: Task, g: Task, here: nat): nat
    requires Consistent(f, height) && top in f.threads && Under(f, height, top, g)
    decreases Gap(height, top, g)
  {
    if g == top then here
    else
      var t := f.realParent[g];
      var up := f.groupLeader[t];
      var i, j := IndexOf(f.threads[up], t), IndexOf(f.children[t], g);
      StepsLeft(f, height, top, up, here + CursorSteps(f, height, up, i, j + 1))
  }

  lemma {:induction false} FewerSteps(f: Forest, height: map<Task, nat>, top: Task, g: Task, n: nat, m: nat)
    requires Consistent(f, height) && top in f.threads && Under(f, height, top, g) && n < m
    ensures StepsLeft(f, height, top, g, n) < StepsLeft(f, height, top, g, m)
    decreases Gap(height, top, g)
  {
    if g != top {
      var t := f.realParent[g];
      var up := f.groupLeader[t];
      var k := CursorSteps(f, height, up, IndexOf(f.threads[up], t), IndexOf(f.children[t], g) + 1);
      FewerSteps(f, height, top, up, n + k, m + k);
    }
  }

  /** Going down into child j of thread i, and where coming back up from it leads. */
  lemma DownThenUp(f: Forest, height: map<Task, nat>, top: Task, g: Task, i: nat, j: nat)
    requires Consistent(f, height) && top in f.threads && Under(f, height, top, g)
    requires Cursor(f, g, i, j) && i < |f.threads[g]| && j < |f.children[f.threads[g][i]]|
    ensures var t := f.threads[g][i]; var c := f.children[t][j];
            && c in f.threads && c != top && Under(f, height, top, c) && f.realParent[c] == t && f.groupLeader[t] == g
            && t in f.threads[g] && IndexOf(f.threads[g], t) == i
            && c in f.children[t] && IndexOf(f.children[t], c) == j
  {
    var t := f.threads[g][i];
    var c := f.children[t][j];
    assert IsThread(f, t, g) && IsChild(f, height, c, t);
    IndexOfAt(f.threads[g], i);
    IndexOfAt(f.children[t], j);
  }

  /** What the whole walk comes to, seen from a cursor inside it. */
  ghost function Whole(f: Forest, height: map<Task, nat>, visit: Visitor, top: Task, g: Task, i: nat, j: nat, calls: seq<Task>): Result
    requires Consistent(f, height) && top in f.threads && Under(f, height, top, g) && Cursor(f, g, i, j)
  {
    Finish(f, height, visit, top, g, FromCursor(f, height, visit, g, i, j, calls))
  }

  ghost function Left(f: Forest, height: map<Task, nat>, top: Task, g: Task, i: nat, j: nat): nat
    requires Consistent(f, height) && top in f.threads && Under(f, height, top, g) && Cursor(f, g, i, j)
  {
    StepsLeft(f, height, top, g, CursorSteps(f, height, g, i, j))
  }

  lemma NextThread(f: Forest, height: map<Task, nat>, visit: Visitor, top: Task, g: Task, i: nat, calls: seq<Task>)
    requires Consistent(f, height) && top in f.threads && Under(f, height, top, g)
    requires g in f.threads && i < |f.threads[g]| && f.threads[g][i] in f.children
    ensures var j := |f.children[f.threads[g][i]]|;
            && Cursor(f, g, i, j) && Cursor(f, g, i + 1, 0)
            && Whole(f, height, visit, top, g, i, j, calls) == Whole(f, height, visit, top, g, i + 1, 0, calls)
            && Left(f, height, top, g, i + 1, 0) < Left(f, height, top, g, i, j)
  {
    var j := |f.children[f.threads[g][i]]|;
    assert IsThread(f, f.threads[g][i], g);
    assert i + 1 < |f.threads[g]| ==> IsThread(f, f.threads[g][i + 1], g);
    FewerSteps(f, height, top, g, CursorSteps(f, height, g, i + 1, 0), CursorSteps(f, height, g, i, j));
  }

  lemma VisitLeft(f: Forest, height: map<Task, nat>, top: Task, g: Task, i: nat, j: nat)
    requires Consistent(f, height) && top in f.threads && Under(f, height, top, g)
    requires Cursor(f, g, i, j) && i < |f.threads[g]| && j < |f.children[f.threads[g][i]]|
    ensures var c := f.children[f.threads[g][i]][j];
            && Under(f, height, top, c) && Cursor(f, c, 0, 0)
            && Left(f, height, top, g, i, j + 1) < Left(f, height, top, g, i, j)
            && Left(f, height, top, c, 0, 0) < Left(f, height, top, g, i, j)
  {
    var t := f.threads[g][i];
    var c := f.children[t][j];
    assert IsThread(f, t, g) && IsChild(f, height, c, t);
    DownThenUp(f, height, top, g, i, j);
    assert 0 < |f.threads[c]| ==> IsThread(f, f.threads[c][0], c);
    assert CursorSteps(f, height, c, 0, 0) == GroupSteps(f, height, c, 0);
    var here, above := CursorSteps(f, height, g, i, j), CursorSteps(f, height, g, i, j + 1);
    FewerSteps(f, height, top, g, above, here);
    FewerSteps(f, height, top, g, GroupSteps(f, height, c, 0) + above, here);
  }

  /** The visitor is called with child j of thread i. */
  lemma Visit(f: Forest, height: map<Task, nat>, visit: Visitor, top: Task, g: Task, i: nat, j: nat, calls: seq<Task>)
    requires Consistent(f, height) && top in f.threads && Under(f, height, top, g)
    requires Cursor(f, g, i, j) && i < |f.threads[g]| && j < |f.children[f.threads[g][i]]|
    ensures var c := f.children[f.threads[g][i]][j]; var res := visit(calls, c);
            && Under(f, height, top, c) && Cursor(f, c, 0, 0)
            && Whole(f, height, visit, top, g, i, j, calls)
                == (if res < 0 then Result(calls + [c], true)
                    else if res > 0 then Whole(f, height, visit, top, c, 0, 0, calls + [c])
                    else Whole(f, height, visit, top, g, i, j + 1, calls + [c]))
  {
    var t := f.threads[g][i];
    var c := f.children[t][j];
    assert IsThread(f, t, g) && IsChild(f, height, c, t);
    DownThenUp(f, height, top, g, i, j);
    assert 0 < |f.threads[c]| ==> IsThread(f, f.threads[c][0], c);
    assert FromCursor(f, height, visit, c, 0, 0, calls + [c]) == WalkGroup(f, height, visit, c, 0, calls + [c]);
  }

  lemma UpCursor(f: Forest, height: map<Task, nat>, top: Task, g: Task)
    requires Consistent(f, height) && top in f.threads && Under(f, height, top, g) && g != top
    ensures var t := f.realParent[g]; var up := f.groupLeader[t];
            && Under(f, height, top, up) && Cursor(f, up, IndexOf(f.threads[up], t), IndexOf(f.children[t], g) + 1)
            && Cursor(f, g, |f.threads[g]|, 0)
  {
  }

  lemma UpWhole(f: Forest, height: map<Task, nat>, visit: Visitor, top: Task, g: Task, calls: seq<Task>)
    requires Consistent(f, height) && top in f.threads && Under(f, height, top, g) && g != top
    ensures var t := f.realParent[g]; var up := f.groupLeader[t];
            var i, j := IndexOf(f.threads[up], t), IndexOf(f.children[t], g) + 1;
            Whole(f, height, visit, top, g, |f.threads[g]|, 0, calls) == Whole(f, height, visit, top, up, i, j, calls)
  {
    hide WalkGroup, WalkChildren, IndexOf;
  }

  lemma UpLeft(f: Forest, height: map<Task, nat>, top: Task, g: Task)
    requires Consistent(f, height) && top in f.threads && Under(f, height, top, g) && g != top
    ensures var t := f.realParent[g]; var up := f.groupLeader[t];
            var i, j := IndexOf(f.threads[up], t), IndexOf(f.children[t], g) + 1;
            Left(f, height, top, up, i, j) < Left(f, height, top, g, |f.threads[g]|, 0)
  {
    hide GroupSteps, ChildSteps, IndexOf;
    var t := f.realParent[g];
    var up := f.groupLeader[t];
    var above := CursorSteps(f, height, up, IndexOf(f.threads[up], t), IndexOf(f.children[t], g) + 1);
    FewerSteps(f, height, top, up, above, above + 1);
  }

  /** The group is finished: up to the leader's own place. */
  lemma BackUp(f: Forest, height: map<Task, nat>, visit: Visitor, top: Task, g: Task, calls: seq<Task>)
    requires Consistent(f, height) && top in f.threads && Under(f, height, top, g) && g != top
    ensures var t := f.realParent[g]; var up := f.groupLeader[t];
            var i, j := IndexOf(f.threads[up], t), IndexOf(f.children[t], g) + 1;
            && Under(f, height, top, up) && Cursor(f, up, i, j) && Cursor(f, g, |f.threads[g]|, 0)
            && Whole(f, height, visit, top, g, |f.threads[g]|, 0, calls) == Whole(f, height, visit, top, up, i, j, calls)
            && Left(f, height, top, up, i, j) < Left(f, height, top, g, |f.threads[g]|, 0)
  {
    hide WalkGroup, WalkChildren, Consistent, Whole, Left;
    UpCursor(f, height, top, g);
    UpWhole(f, height, visit, top, g, calls);
    UpLeft(f, height, top, g);
  }

  lemma WholeAtStart(f: Forest, height: map<Task, nat>, visit: Visitor, top: Task)
    requires Consistent(f, height) && top in f.threads
    ensures Under(f, height, top, top) && Cursor(f, top, 0, 0)
    ensures WalkGroup(f, height, visit, top, 0, []) == Whole(f, height, visit, top, top, 0, 0, [])
  {
    assert 0 < |f.threads[top]| ==> IsThread(f, f.threads[top][0], top);
  }

  lemma WholeAtEnd(f: Forest, height: map<Task, nat>, visit: Visitor, top: Task, calls: seq<Task>)
    requires Consistent(f, height) && top in f.threads
    ensures Whole(f, height, visit, top, top, |f.threads[top]|, 0, calls) == Result(calls, false)
  {
  }

  /**
   The walk under tasklist_lock, with its jumps down into a child's group and up to the
   child's place as one loop over the cursor. It makes exactly the calls of the recursive walk.
   */
  method WalkProcessTree(f: Forest, ghost height: map<Task, nat>, visit: Visitor, task: Task) returns (r: Result)
    requires Consistent(f, height) && task in f.groupLeader && f.groupLeader[task] in f.threads
    ensures r == WalkGroup(f, height, visit, f.groupLeader[task], 0, [])
  {
    var top := f.groupLeader[task];
    var leader := top;
    var i: nat, j: nat := 0, 0;
    var calls: seq<Task> := [];
    hide Whole, Left, WalkGroup, IndexOf, IsThread, IsChild;
    WholeAtStart(f, height, visit, top);
    while true
      invariant Under(f, height, top, leader) && Cursor(f, leader, i, j)
      invariant WalkGroup(f, height, visit, top, 0, []) == Whole(f, height, visit, top, leader, i, j, calls)
      decreases Left(f, height, top, leader, i, j)
    {
      if i < |f.threads[leader]| {
        var parent := f.threads[leader][i];
        if j < |f.children[parent]| {
          var child := f.children[parent][j];
          VisitLeft(f, height, top, leader, i, j);
          Visit(f, height, visit, top, leader, i, j, calls);
          var res := visit(calls, child);
          calls := calls + [child];
          if res != 0 {
            if res < 0 {
              return Result(calls, true);
            }
            leader, i, j := child, 0, 0;
          } else {
            j := j + 1;
          }
        } else {
          NextThread(f, height, visit, top, leader, i, calls);
          i, j := i + 1, 0;
        }
      } else if leader != top {
        BackUp(f, height, visit, top, leader, calls);
        var child := leader;
        var parent := f.realParent[child];
        leader := f.groupLeader[parent];
        i, j := IndexOf(f.threads[leader], parent), IndexOf(f.children[parent], child) + 1;
      } else {
        WholeAtEnd(f, height, visit, top, calls);
        return Result(calls, false);
      }
    }
  }
}
