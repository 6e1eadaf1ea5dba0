/**
 The order of the calls of walk_process_tree: a task comes before all that is below it, and of two children of a group the
 one met first comes with all that is below it before the other.
 */
module ProcessTreeOrder {
  import opened ProcessTree
  import opened ProcessTreeLaws

  /** x is at or below child a of thread i of group g, y at or below child b of thread j, and that is a later place. */
  ghost predicate Sooner(f: Forest, height: map<Task, nat>, g: Task, i: nat, a: nat, j: nat, b: nat, x: Task, y: Task)
    requires Consistent(f, height)
  {
    && g in f.threads && i <= j < |f.threads[g]| && (i < j || a < b)
    && BelowChild(f, height, f.threads[g][i], a, x) && BelowChild(f, height, f.threads[g][j], b, y)
  }

  ghost predicate Precedes(f: Forest, height: map<Task, nat>, x: Task, y: Task)
    requires Consistent(f, height)
  {
    || (x in f.threads && x != y && Under(f, height, x, y))
    || exists g, i: nat, a: nat, j: nat, b: nat :: Sooner(f, height, g, i, a, j, b, x, y)
  }

  ghost predicate InOrder(f: Forest, height: map<Task, nat>, s: seq<Task>)
    requires Consistent(f, height)
  {
    forall p, q | 0 <= p < q < |s| :: Precedes(f, height, s[p], s[q])
  }

  lemma InOrderThen(f: Forest, height: map<Task, nat>, l: seq<Task>, r: seq<Task>)
    requires Consistent(f, height) && InOrder(f, height, l) && InOrder(f, height, r)
    requires forall x, y | x in l && y in r :: Precedes(f, height, x, y)
    ensures InOrder(f, height, l + r)
  {
    hide Precedes;
    var s := l + r;
    forall p, q | 0 <= p < q < |s| ensures Precedes(f, height, s[p], s[q]) {
      if p < |l| <= q {
        assert l[p] in l && r[q - |l|] in r;
      }
    }
  }

  /** What one thread's children add comes before what later threads add. */
  lemma ThreadFirst(f: Forest, height: map<Task, nat>, g: Task, k: nat, x: Task, y: Task)
    requires Consistent(f, height) && g in f.threads && k < |f.threads[g]|
    requires BelowThread(f, height, f.threads[g][k], 0, x) && BelowGroup(f, height, g, k + 1, y)
    ensures Precedes(f, height, x, y)
  {
    var j :| k + 1 <= j < |f.threads[g]| && BelowThread(f, height, f.threads[g][j], 0, y);
    var a: nat :| BelowChild(f, height, f.threads[g][k], a, x);
    var b: nat :| BelowChild(f, height, f.threads[g][j], b, y);
    assert Sooner(f, height, g, k, a, j, b, x, y);
  }

  /** What one child adds comes before what later children of its parent add. */
  lemma ChildFirst(f: Forest, height: map<Task, nat>, g: Task, t: Task, k: nat, x: Task, y: Task)
    requires Consistent(f, height) && g in f.threads && IsThread(f, t, g)
    requires BelowChild(f, height, t, k, x) && BelowThread(f, height, t, k + 1, y)
    ensures Precedes(f, height, x, y)
  {
    assert IsChild(f, height, f.children[t][k], t);
    var i :| 0 <= i < |f.threads[g]| && f.threads[g][i] == t;
    var b: nat :| k + 1 <= b && BelowChild(f, height, t, b, y);
    assert Sooner(f, height, g, i, k, i, b, x, y);
  }

  lemma Nothing(f: Forest, height: map<Task, nat>, calls: seq<Task>)
    requires Consistent(f, height)
    ensures InOrder(f, height, calls[|calls|..])
  {
  }

  lemma {:induction false} GroupOrder(f: Forest, height: map<Task, nat>, visit: Visitor, g: Task, k: nat, calls: seq<Task>)
    requires Consistent(f, height) && g in f.threads && k <= |f.threads[g]|
    ensures var s := WalkGroup(f, height, visit, g, k, calls).calls; calls <= s && InOrder(f, height, s[|calls|..])
    decreases height[g], 1, |f.threads[g]| - k
  {
    hide InOrder;
    if k == |f.threads[g]| {
      Nothing(f, height, calls);
    } else {
      var t := f.threads[g][k];
      assert IsThread(f, t, g);
      var r := WalkChildren(f, height, visit, g, t, 0, calls);
      ChildrenOnce(f, height, visit, g, t, 0, calls);
      ChildrenOrder(f, height, visit, g, t, 0, calls);
      if !r.stopped {
        var s := WalkGroup(f, height, visit, g, k + 1, r.calls).calls;
        GroupOnce(f, height, visit, g, k + 1, r.calls);
        GroupOrder(f, height, visit, g, k + 1, r.calls);
        forall x, y | x in r.calls[|calls|..] && y in s[|r.calls|..] ensures Precedes(f, height, x, y) {
          ThreadFirst(f, height, g, k, x, y);
        }
        InOrderThen(f, height, r.calls[|calls|..], s[|r.calls|..]);
        assert s[|calls|..] == r.calls[|calls|..] + s[|r.calls|..];
      }
    }
  }

  /** A child comes before what its own group adds. */
  lemma LeaderFirst(f: Forest, height: map<Task, nat>, t: Task, k: nat, c: Task, calls: seq<Task>, s: seq<Task>)
    requires Consistent(f, height) && t in f.children && k < |f.children[t]| && c == f.children[t][k] && c in f.threads
    requires calls + [c] <= s && Added(calls, s) && forall x | x in s[|calls|..] :: BelowChild(f, height, t, k, x)
    requires InOrder(f, height, s[|calls + [c]|..])
    ensures InOrder(f, height, s[|calls|..])
  {
    var rest := s[|calls + [c]|..];
    assert s[|calls|..] == [c] + rest;
    forall x, y | x in [c] && y in rest ensures Precedes(f, height, x, y) {
      assert y in s[|calls|..] && ([c] + rest)[0] == c && Distinct([c] + rest);
      var i :| 0 <= i < |rest| && rest[i] == y;
      assert ([c] + rest)[i + 1] == y;
    }
    InOrderThen(f, height, [c], rest);
  }

  lemma {:induction false} ChildrenOrder(f: Forest, height: map<Task, nat>, visit: Visitor, g: Task, t: Task, k: nat, calls: seq<Task>)
    requires Consistent(f, height) && g in f.threads && IsThread(f, t, g) && k <= |f.children[t]|
    ensures var s := WalkChildren(f, height, visit, g, t, k, calls).calls; calls <= s && InOrder(f, height, s[|calls|..])
    decreases height[g], 0, |f.children[t]| - k
  {
    if k < |f.children[t]| {
      var c := f.children[t][k];
      assert IsChild(f, height, c, t);
      assert BelowChild(f, height, t, k, c);
      var res := visit(calls, c);
      assert (calls + [c])[|calls|..] == [c];
      if res >= 0 {
        var r := if res > 0 then WalkGroup(f, height, visit, c, 0, calls + [c]) else Result(calls + [c], false);
        if res > 0 {
          GroupOnce(f, height, visit, c, 0, calls + [c]);
          GroupOrder(f, height, visit, c, 0, calls + [c]);
          BelowStart(f, height, t, k, c, calls, r.calls);
          LeaderFirst(f, height, t, k, c, calls, r.calls);
        }
        if !r.stopped {
          var s := WalkChildren(f, height, visit, g, t, k + 1, r.calls).calls;
          ChildrenOnce(f, height, visit, g, t, k + 1, r.calls);
          ChildrenOrder(f, height, visit, g, t, k + 1, r.calls);
          forall x, y | x in r.calls[|calls|..] && y in s[|r.calls|..] ensures Precedes(f, height, x, y) {
            ChildFirst(f, height, g, t, k, x, y);
          }
          InOrderThen(f, height, r.calls[|calls|..], s[|r.calls|..]);
          assert s[|calls|..] == r.calls[|calls|..] + s[|r.calls|..];
        }
      }
    }
  }

  // The order is strict, so it leaves one way to arrange the calls.

  lemma {:induction false} UnderUnder(f: Forest, height: map<Task, nat>, c: Task, x: Task, y: Task)
    requires Consistent(f, height) && c in f.threads && x in f.threads && Under(f, height, c, x) && Under(f, height, x, y)
    ensures Under(f, height, c, y)
    decreases Gap(height, x, y)
  {
    UnderLow(f, height, c, x);
    if y != x {
      UnderUnder(f, height, c, x, ParentGroup(f, y));
      UnderLow(f, height, c, ParentGroup(f, y));
    }
  }

  lemma {:induction false} OneWayUp(f: Forest, height: map<Task, nat>, c: Task, d: Task, x: Task)
    requires Consistent(f, height) && c in f.threads && d in f.threads && Under(f, height, c, x) && Under(f, height, d, x)
    ensures Under(f, height, c, d) || Under(f, height, d, c)
    decreases Gap(height, c, x)
  {
    if x != c && x != d {
      OneWayUp(f, height, c, d, ParentGroup(f, x));
    }
  }

  ghost predicate ChildOf(f: Forest, height: map<Task, nat>, g: Task, c: Task)
    requires Consistent(f, height)
  {
    g in f.threads && c in f.threads && IsRealChild(f, height, c) && ParentGroup(f, c) == g
  }

  lemma IsChildOf(f: Forest, height: map<Task, nat>, g: Task, i: nat, a: nat, x: Task)
    requires Consistent(f, height) && g in f.threads && i < |f.threads[g]| && BelowChild(f, height, f.threads[g][i], a, x)
    ensures ChildOf(f, height, g, f.children[f.threads[g][i]][a])
  {
    var t := f.threads[g][i];
    assert IsThread(f, t, g) && IsChild(f, height, f.children[t][a], t);
  }

  /** What is below one child of a group is below no other, even through a group further down. */
  lemma Apart(f: Forest, height: map<Task, nat>, g: Task, c: Task, d: Task, h: Task, c': Task, d': Task, y: Task)
    requires Consistent(f, height) && ChildOf(f, height, g, c) && ChildOf(f, height, g, d)
    requires ChildOf(f, height, h, c') && ChildOf(f, height, h, d')
    requires c != d' && Under(f, height, d', c) && Under(f, height, d, y) && Under(f, height, c', y)
    ensures c' == d'
  {
    UnderLow(f, height, d', g);
    assert Under(f, height, d', d);
    UnderUnder(f, height, d', d, y);
    BelowOne(f, height, h, c', d', y);
  }

  /** A task has one place in a group. */
  lemma SamePlace(f: Forest, height: map<Task, nat>, g: Task, i: nat, a: nat, j: nat, b: nat, x: Task)
    requires Consistent(f, height) && g in f.threads && i < |f.threads[g]| && j < |f.threads[g]|
    requires BelowChild(f, height, f.threads[g][i], a, x) && BelowChild(f, height, f.threads[g][j], b, x)
    ensures i == j && a == b
  {
    assert IsThread(f, f.threads[g][i], g) && IsThread(f, f.threads[g][j], g);
    OnePlace(f, height, g, f.threads[g][i], a, f.threads[g][j], b, x);
  }

  lemma SoonerOneWay(f: Forest, height: map<Task, nat>, g: Task, i: nat, a: nat, j: nat, b: nat,
                     h: Task, i': nat, a': nat, j': nat, b': nat, x: Task, y: Task)
    requires Consistent(f, height) && Sooner(f, height, g, i, a, j, b, x, y)
    ensures !Sooner(f, height, h, i', a', j', b', y, x)
  {
    if Sooner(f, height, h, i', a', j', b', y, x) {
      hide Under, Consistent, IsRealChild;
      var c, d := f.children[f.threads[g][i]][a], f.children[f.threads[g][j]][b];
      var c', d' := f.children[f.threads[h][i']][a'], f.children[f.threads[h][j']][b'];
      IsChildOf(f, height, g, i, a, x);
      IsChildOf(f, height, g, j, b, y);
      IsChildOf(f, height, h, i', a', y);
      IsChildOf(f, height, h, j', b', x);
      OneWayUp(f, height, c, d', x);
      if c == d' {
        SamePlace(f, height, g, i, a, j', b', x);
        SamePlace(f, height, g, j, b, i', a', y);
      } else if Under(f, height, d', c) {
        Apart(f, height, g, c, d, h, c', d', y);
        SamePlace(f, height, h, i', a', j', b', y);
      } else {
        Apart(f, height, h, d', c', g, d, c, y);
        SamePlace(f, height, g, i, a, j, b, y);
      }
      assert false;
    }
  }

  lemma BelowNotSooner(f: Forest, height: map<Task, nat>, x: Task, y: Task, g: Task, i: nat, a: nat, j: nat, b: nat)
    requires Consistent(f, height) && x in f.threads && Under(f, height, x, y)
    ensures !Sooner(f, height, g, i, a, j, b, y, x) && !Sooner(f, height, g, i, a, j, b, x, y)
  {
    if Sooner(f, height, g, i, a, j, b, y, x) {
      UnderUnder(f, height, f.children[f.threads[g][j]][b], x, y);
      SamePlace(f, height, g, i, a, j, b, y);
      assert false;
    }
    if Sooner(f, height, g, i, a, j, b, x, y) {
      UnderUnder(f, height, f.children[f.threads[g][i]][a], x, y);
      SamePlace(f, height, g, i, a, j, b, y);
      assert false;
    }
  }

  /** No two tasks come before each other, and none before itself. */
  lemma PrecedesStrict(f: Forest, height: map<Task, nat>, x: Task, y: Task)
    requires Consistent(f, height) && Precedes(f, height, x, y)
    ensures !Precedes(f, height, y, x)
  {
    hide Sooner;
    if Precedes(f, height, y, x) {
      if x in f.threads && x != y && Under(f, height, x, y) {
        UnderLow(f, height, x, y);
        if !Under(f, height, y, x) {
          var g, i: nat, a: nat, j: nat, b: nat :| Sooner(f, height, g, i, a, j, b, y, x);
          BelowNotSooner(f, height, x, y, g, i, a, j, b);
        }
        assert false;
      }
      var g, i: nat, a: nat, j: nat, b: nat :| Sooner(f, height, g, i, a, j, b, x, y);
      if y in f.threads && x != y && Under(f, height, y, x) {
        BelowNotSooner(f, height, y, x, g, i, a, j, b);
      } else {
        var h, i': nat, a': nat, j': nat, b': nat :| Sooner(f, height, h, i', a', j', b', y, x);
        SoonerOneWay(f, height, g, i, a, j, b, h, i', a', j', b', x, y);
      }
      assert false;
    }
  }
}
