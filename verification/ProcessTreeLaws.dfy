/**
 What the recursive walk of a process tree calls the visitor with: the rules every call obeys,
 that nothing is left out, and that no task is seen twice.
 */
module ProcessTreeLaws {
  import opened ProcessTree

  /** The group one of whose threads has x as its child. */
  ghost function ParentGroup(f: Forest, x: Task): Task
    requires x in f.realParent && f.realParent[x] in f.groupLeader
  {
    f.groupLeader[f.realParent[x]]
  }

  ghost predicate Positive(visit: Visitor, calls: seq<Task>, i: nat) {
    i < |calls| && visit(calls[..i], calls[i]) > 0
  }

  /**
   Call i is of a child of the starting group, or of a group whose leader was answered with a
   positive number before; and a negative answer comes exactly with the last call of a stopped walk.
   */
  ghost predicate CallOk(f: Forest, visit: Visitor, g: Task, n: nat, r: Result, i: nat)
    requires i < |r.calls|
  {
    var x := r.calls[i];
    && x in f.realParent && f.realParent[x] in f.groupLeader
    && (ParentGroup(f, x) == g || exists j | n <= j < i :: r.calls[j] == ParentGroup(f, x) && Positive(visit, r.calls, j))
    && (visit(r.calls[..i], x) < 0 <==> r.stopped && i == |r.calls| - 1)
  }

  ghost predicate Rules(f: Forest, visit: Visitor, g: Task, calls: seq<Task>, r: Result) {
    && calls <= r.calls && (r.stopped ==> |calls| < |r.calls|)
    && forall i | |calls| <= i < |r.calls| :: CallOk(f, visit, g, |calls|, r, i)
  }

  lemma RulesThen(f: Forest, visit: Visitor, g: Task, calls: seq<Task>, r: Result, s: Result)
    requires Rules(f, visit, g, calls, r) && !r.stopped && Rules(f, visit, g, r.calls, s)
    ensures Rules(f, visit, g, calls, s)
  {
    forall i | |calls| <= i < |s.calls| ensures CallOk(f, visit, g, |calls|, s, i) {
      if i < |r.calls| {
        assert CallOk(f, visit, g, |calls|, r, i);
        assert r.calls[..i] == s.calls[..i];
        if ParentGroup(f, r.calls[i]) != g {
          var j :| |calls| <= j < i && r.calls[j] == ParentGroup(f, r.calls[i]) && Positive(visit, r.calls, j);
          assert r.calls[..j] == s.calls[..j];
          assert Positive(visit, s.calls, j);
        }
      } else {
        assert CallOk(f, visit, g, |r.calls|, s, i);
      }
    }
  }

  /** One call, and the group below it when the answer was positive. */
  lemma RulesBelow(f: Forest, visit: Visitor, g: Task, c: Task, calls: seq<Task>, r: Result)
    requires c in f.realParent && f.realParent[c] in f.groupLeader && ParentGroup(f, c) == g
    requires visit(calls, c) > 0 && Rules(f, visit, c, calls + [c], r)
    ensures Rules(f, visit, g, calls, r)
  {
    var n := |calls|;
    assert r.calls[n] == c && r.calls[..n] == calls;
    assert Positive(visit, r.calls, n);
    forall i | n <= i < |r.calls| ensures CallOk(f, visit, g, n, r, i) {
      if i > n {
        assert CallOk(f, visit, c, n + 1, r, i);
      }
    }
  }

  lemma {:induction false} GroupRules(f: Forest, height: map<Task, nat>, visit: Visitor, g: Task, k: nat, calls: seq<Task>)
    requires Consistent(f, height) && g in f.threads && k <= |f.threads[g]|
    ensures Rules(f, visit, g, calls, WalkGroup(f, height, visit, g, k, calls))
    decreases height[g], 1, |f.threads[g]| - k
  {
    if k < |f.threads[g]| {
      assert IsThread(f, f.threads[g][k], g);
      ChildRules(f, height, visit, g, f.threads[g][k], 0, calls);
      var r := WalkChildren(f, height, visit, g, f.threads[g][k], 0, calls);
      if !r.stopped {
        GroupRules(f, height, visit, g, k + 1, r.calls);
        RulesThen(f, visit, g, calls, r, WalkGroup(f, height, visit, g, k + 1, r.calls));
      }
    }
  }

  lemma {:induction false} ChildRules(f: Forest, height: map<Task, nat>, visit: Visitor, g: Task, t: Task, k: nat, calls: seq<Task>)
    requires Consistent(f, height) && g in f.threads && IsThread(f, t, g) && k <= |f.children[t]|
    ensures Rules(f, visit, g, calls, WalkChildren(f, height, visit, g, t, k, calls))
    decreases height[g], 0, |f.children[t]| - k
  {
    if k < |f.children[t]| {
      var c := f.children[t][k];
      assert IsChild(f, height, c, t);
      var res := visit(calls, c);
      if res < 0 {
        assert (calls + [c])[..|calls|] == calls;
      } else {
        var r := if res > 0 then WalkGroup(f, height, visit, c, 0, calls + [c]) else Result(calls + [c], false);
        if res > 0 {
          GroupRules(f, height, visit, c, 0, calls + [c]);
          RulesBelow(f, visit, g, c, calls, r);
        } else {
          assert (calls + [c])[..|calls|] == calls;
        }
        if !r.stopped {
          ChildRules(f, height, visit, g, t, k + 1, r.calls);
          RulesThen(f, visit, g, calls, r, WalkChildren(f, height, visit, g, t, k + 1, r.calls));
        }
      }
    }
  }

  // Nothing is left out.

  ghost predicate CalledChildren(f: Forest, t: Task, k: nat, s: seq<Task>) {
    t in f.children && forall j | k <= j < |f.children[t]| :: f.children[t][j] in s
  }

  /** Every child of thread k and later of the group has been called. */
  ghost predicate CalledFrom(f: Forest, g: Task, k: nat, s: seq<Task>) {
    g in f.threads && forall i | k <= i < |f.threads[g]| :: CalledChildren(f, f.threads[g][i], 0, s)
  }

  /** Below every call with a positive answer the whole group was called as well. */
  ghost predicate Thorough(f: Forest, visit: Visitor, n: nat, s: seq<Task>) {
    forall i | n <= i < |s| && Positive(visit, s, i) :: CalledFrom(f, s[i], 0, s)
  }

  lemma ThoroughThen(f: Forest, visit: Visitor, n: nat, a: seq<Task>, s: seq<Task>)
    requires Thorough(f, visit, n, a) && a <= s && Thorough(f, visit, |a|, s)
    ensures Thorough(f, visit, n, s)
  {
    forall i | n <= i < |s| && Positive(visit, s, i) ensures CalledFrom(f, s[i], 0, s) {
      if i < |a| {
        assert a[..i] == s[..i] && a[i] == s[i];
        assert Positive(visit, a, i);
        forall k | 0 <= k < |f.threads[a[i]]| ensures CalledChildren(f, f.threads[a[i]][k], 0, s) {
          assert CalledChildren(f, f.threads[a[i]][k], 0, a);
        }
      }
    }
  }

  lemma {:induction false} GroupComplete(f: Forest, height: map<Task, nat>, visit: Visitor, g: Task, k: nat, calls: seq<Task>)
    requires Consistent(f, height) && g in f.threads && k <= |f.threads[g]|
    requires !WalkGroup(f, height, visit, g, k, calls).stopped
    ensures var s := WalkGroup(f, height, visit, g, k, calls).calls;
            calls <= s && CalledFrom(f, g, k, s) && Thorough(f, visit, |calls|, s)
    decreases height[g], 1, |f.threads[g]| - k
  {
    if k < |f.threads[g]| {
      var t := f.threads[g][k];
      assert IsThread(f, t, g);
      var r := WalkChildren(f, height, visit, g, t, 0, calls);
      ChildrenComplete(f, height, visit, g, t, 0, calls);
      GroupComplete(f, height, visit, g, k + 1, r.calls);
      var s := WalkGroup(f, height, visit, g, k + 1, r.calls).calls;
      ThoroughThen(f, visit, |calls|, r.calls, s);
      assert CalledChildren(f, t, 0, s);
    }
  }

  lemma {:induction false} ChildrenComplete(f: Forest, height: map<Task, nat>, visit: Visitor, g: Task, t: Task, k: nat, calls: seq<Task>)
    requires Consistent(f, height) && g in f.threads && IsThread(f, t, g) && k <= |f.children[t]|
    requires !WalkChildren(f, height, visit, g, t, k, calls).stopped
    ensures var s := WalkChildren(f, height, visit, g, t, k, calls).calls;
            calls <= s && CalledChildren(f, t, k, s) && Thorough(f, visit, |calls|, s)
    decreases height[g], 0, |f.children[t]| - k
  {
    if k < |f.children[t]| {
      var c := f.children[t][k];
      assert IsChild(f, height, c, t);
      var n := |calls|;
      assert (calls + [c])[..n] == calls && (calls + [c])[n] == c;
      var r := if visit(calls, c) > 0 then WalkGroup(f, height, visit, c, 0, calls + [c]) else Result(calls + [c], false);
      if visit(calls, c) > 0 {
        GroupComplete(f, height, visit, c, 0, calls + [c]);
        assert r.calls[n] == c;
      }
      assert Thorough(f, visit, n, r.calls) && r.calls[n] == c;
      ChildrenComplete(f, height, visit, g, t, k + 1, r.calls);
      var s := WalkChildren(f, height, visit, g, t, k + 1, r.calls).calls;
      ThoroughThen(f, visit, n, r.calls, s);
      assert s[n] == c;
    }
  }

  // No task is seen twice.

  lemma UnderLow(f: Forest, height: map<Task, nat>, top: Task, x: Task)
    requires Consistent(f, height) && top in f.threads && Under(f, height, top, x)
    ensures x in f.threads && height[x] <= height[top]
  {
  }

  /** Two child groups of the same group have nothing below them in common. */
  lemma {:induction false} BelowOne(f: Forest, height: map<Task, nat>, g: Task, c: Task, d: Task, x: Task)
    requires Consistent(f, height) && c in f.threads && d in f.threads
    requires IsRealChild(f, height, c) && ParentGroup(f, c) == g && IsRealChild(f, height, d) && ParentGroup(f, d) == g
    requires Under(f, height, c, x) && Under(f, height, d, x)
    ensures c == d
    decreases Gap(height, c, x)
  {
    if x == c || x == d {
      UnderLow(f, height, c, x);
      UnderLow(f, height, d, x);
      if c != d {
        if x == c { UnderLow(f, height, d, g); } else { UnderLow(f, height, c, g); }
      }
    } else {
      BelowOne(f, height, g, c, d, ParentGroup(f, x));
    }
  }

  ghost predicate BelowChild(f: Forest, height: map<Task, nat>, t: Task, j: nat, x: Task)
    requires Consistent(f, height)
  {
    && t in f.children && j < |f.children[t]| && f.children[t][j] in f.threads
    && Under(f, height, f.children[t][j], x)
  }

  ghost predicate BelowThread(f: Forest, height: map<Task, nat>, t: Task, k: nat, x: Task)
    requires Consistent(f, height)
  {
    exists j | k <= j :: BelowChild(f, height, t, j, x)
  }

  ghost predicate BelowGroup(f: Forest, height: map<Task, nat>, g: Task, k: nat, x: Task)
    requires Consistent(f, height) && g in f.threads
  {
    exists i | k <= i < |f.threads[g]| :: BelowThread(f, height, f.threads[g][i], 0, x)
  }

  /** The place among the children of a group's threads is determined by any task below it. */
  lemma OnePlace(f: Forest, height: map<Task, nat>, g: Task, t: Task, i: nat, u: Task, j: nat, x: Task)
    requires Consistent(f, height) && IsThread(f, t, g) && IsThread(f, u, g)
    requires BelowChild(f, height, t, i, x) && BelowChild(f, height, u, j, x)
    ensures t == u && i == j
  {
    var c, d := f.children[t][i], f.children[u][j];
    assert IsChild(f, height, c, t) && IsChild(f, height, d, u);
    BelowOne(f, height, g, c, d, x);
  }

  /** The calls a walk adds: no task twice, and each of them below the part of the tree it walked. */
  ghost predicate Added(calls: seq<Task>, s: seq<Task>) {
    calls <= s && Distinct(s[|calls|..])
  }

  lemma AddedThen(a: seq<Task>, b: seq<Task>, c: seq<Task>)
    requires Added(a, b) && Added(b, c)
    requires forall x | x in b[|a|..] :: x !in c[|b|..]
    ensures Added(a, c)
  {
    var s, l, r := c[|a|..], b[|a|..], c[|b|..];
    assert s == l + r;
    forall i, j | 0 <= i < j < |s| ensures s[i] != s[j] {
      if i < |l| <= j {
        assert l[i] in l && r[j - |l|] in r;
      }
    }
  }

  lemma {:induction false} GroupOnce(f: Forest, height: map<Task, nat>, visit: Visitor, g: Task, k: nat, calls: seq<Task>)
    requires Consistent(f, height) && g in f.threads && k <= |f.threads[g]|
    ensures var s := WalkGroup(f, height, visit, g, k, calls).calls;
            Added(calls, s) && forall x | x in s[|calls|..] :: BelowGroup(f, height, g, k, x)
    decreases height[g], 1, |f.threads[g]| - k
  {
    if k < |f.threads[g]| {
      var t := f.threads[g][k];
      assert IsThread(f, t, g);
      var r := WalkChildren(f, height, visit, g, t, 0, calls);
      ChildrenOnce(f, height, visit, g, t, 0, calls);
      if !r.stopped {
        GroupOnce(f, height, visit, g, k + 1, r.calls);
        var s := WalkGroup(f, height, visit, g, k + 1, r.calls).calls;
        forall x | x in r.calls[|calls|..] ensures x !in s[|r.calls|..] {
          if x in s[|r.calls|..] {
            var i :| k + 1 <= i < |f.threads[g]| && BelowThread(f, height, f.threads[g][i], 0, x);
            var a :| 0 <= a && BelowChild(f, height, t, a, x);
            var b :| 0 <= b && BelowChild(f, height, f.threads[g][i], b, x);
            assert IsThread(f, f.threads[g][i], g);
            OnePlace(f, height, g, t, a, f.threads[g][i], b, x);
          }
        }
        AddedThen(calls, r.calls, s);
        assert s[|calls|..] == r.calls[|calls|..] + s[|r.calls|..];
      }
    }
  }

  lemma {:induction false} UnderTrans(f: Forest, height: map<Task, nat>, top: Task, d: Task, x: Task)
    requires Consistent(f, height) && top in f.threads && d in f.threads
    requires IsRealChild(f, height, d) && ParentGroup(f, d) == top && Under(f, height, d, x)
    ensures Under(f, height, top, x) && x != top
    decreases Gap(height, d, x)
  {
    UnderLow(f, height, d, x);
    if x != d {
      UnderTrans(f, height, top, d, ParentGroup(f, x));
    }
  }

  /** A child, then what its own group adds. */
  lemma BelowStart(f: Forest, height: map<Task, nat>, t: Task, k: nat, c: Task, calls: seq<Task>, s: seq<Task>)
    requires Consistent(f, height) && t in f.children && k < |f.children[t]| && c == f.children[t][k] && c in f.threads
    requires Added(calls + [c], s)
    requires forall x | x in s[|calls + [c]|..] :: BelowGroup(f, height, c, 0, x)
    ensures Added(calls, s) && forall x | x in s[|calls|..] :: BelowChild(f, height, t, k, x)
  {
    var rest := s[|calls + [c]|..];
    forall x | x in rest ensures x != c && Under(f, height, c, x) {
      var i :| 0 <= i < |f.threads[c]| && BelowThread(f, height, f.threads[c][i], 0, x);
      var u := f.threads[c][i];
      var j :| 0 <= j && BelowChild(f, height, u, j, x);
      assert IsThread(f, u, c) && IsChild(f, height, f.children[u][j], u);
      UnderTrans(f, height, c, f.children[u][j], x);
    }
    assert (calls + [c])[|calls|..] == [c] && s[|calls|..] == [c] + rest;
    AddedThen(calls, calls + [c], s);
  }

  lemma {:induction false} ChildrenOnce(f: Forest, height: map<Task, nat>, visit: Visitor, g: Task, t: Task, k: nat, calls: seq<Task>)
    requires Consistent(f, height) && g in f.threads && IsThread(f, t, g) && k <= |f.children[t]|
    ensures var s := WalkChildren(f, height, visit, g, t, k, calls).calls;
            Added(calls, s) && forall x | x in s[|calls|..] :: BelowThread(f, height, t, k, x)
    decreases height[g], 0, |f.children[t]| - k
  {
    if k < |f.children[t]| {
      var c := f.children[t][k];
      assert IsChild(f, height, c, t);
      assert BelowChild(f, height, t, k, c);
      var res := visit(calls, c);
      assert (calls + [c])[|calls|..] == [c];
      if res >= 0 {
        var r := if res > 0 then WalkGroup(f, height, visit, c, 0, calls + [c]) else Result(calls + [c], false);
        if res > 0 {
          GroupOnce(f, height, visit, c, 0, calls + [c]);
          BelowStart(f, height, t, k, c, calls, r.calls);
        }
        assert Added(calls, r.calls) && forall x | x in r.calls[|calls|..] :: BelowChild(f, height, t, k, x);
        if !r.stopped {
          ChildrenOnce(f, height, visit, g, t, k + 1, r.calls);
          var s := WalkChildren(f, height, visit, g, t, k + 1, r.calls).calls;
          forall x | x in r.calls[|calls|..] ensures x !in s[|r.calls|..] {
            if x in s[|r.calls|..] {
              var j :| k + 1 <= j && BelowChild(f, height, t, j, x);
              OnePlace(f, height, g, t, k, t, j, x);
            }
          }
          AddedThen(calls, r.calls, s);
          assert s[|calls|..] == r.calls[|calls|..] + s[|r.calls|..];
        }
      }
    }
  }
}
