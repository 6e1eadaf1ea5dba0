/**
 The references to watched-tree chunks that an audit context collects, kernel/auditsc.c: a linked
 list of 31-slot arrays, filled from the top slot down, that is never shortened.
 */
module TreeRefs {
  import opened Wrappers

  type Chunk = nat
  type Tree = nat
  datatype Slot = Null | Ref(chunk: Chunk)

  /** One climb of handle_path from a dentry to the root: the chunks looked up on the way, whether a rename
      raced with it, and whether memory can be had if the list has to grow. */
  datatype Attempt = Attempt(chunks: seq<Chunk>, raced: bool, memory: bool)

  datatype Outcome = Collected | Lost | Retrying

  /** What a series of attempts comes to when `room` slots are free: the references kept, and those given back. */
  datatype Account = Account(outcome: Outcome, kept: seq<Chunk>, back: seq<Chunk>)

  function Climb(room: nat, attempts: seq<Attempt>): Account
    decreases |attempts|
  {
    if attempts == [] then Account(Retrying, [], [])
    else
      var a := attempts[0];
      if room < |a.chunks| then
        var back := [a.chunks[room]] + a.chunks[..room];
        if !a.memory then Account(Lost, [], back)
        else
          var rest := Climb(room + 31, attempts[1..]);
          Account(rest.outcome, rest.kept, back + rest.back)
      else if a.raced then
        var rest := Climb(room, attempts[1..]);
        Account(rest.outcome, rest.kept, a.chunks + rest.back)
      else Account(Collected, a.chunks, [])
  }

  /** The references taken: every chunk looked up until an attempt succeeds or runs out of slots. */
  function LookedUp(room: nat, attempts: seq<Attempt>): seq<Chunk>
    decreases |attempts|
  {
    if attempts == [] then []
    else
      var a := attempts[0];
      if room < |a.chunks| then a.chunks[..room + 1] + (if a.memory then LookedUp(room + 31, attempts[1..]) else [])
      else a.chunks + (if a.raced then LookedUp(room, attempts[1..]) else [])
  }

  /** No reference is lost or given back twice: what was looked up is what is kept and what was given back. */
  lemma {:induction false} ClimbConserves(room: nat, attempts: seq<Attempt>)
    ensures var r := Climb(room, attempts); multiset(LookedUp(room, attempts)) == multiset(r.kept) + multiset(r.back)
    ensures Climb(room, attempts).outcome != Collected ==> Climb(room, attempts).kept == []
    decreases |attempts|
  {
    if attempts != [] {
      var a := attempts[0];
      if room < |a.chunks| {
        assert a.chunks[..room + 1] == a.chunks[..room] + [a.chunks[room]];
        if a.memory { ClimbConserves(room + 31, attempts[1..]); }
      } else if a.raced {
        ClimbConserves(room, attempts[1..]);
      }
    }
  }

  /** The free slots before each attempt: 31 more behind every one that found too few. */
  ghost predicate Rooms(room: nat, attempts: seq<Attempt>, rooms: seq<nat>) {
    && |rooms| == |attempts| + 1 && rooms[0] == room
    && forall i | 0 <= i < |attempts| :: rooms[i + 1] == rooms[i] + if rooms[i] < |attempts[i].chunks| then 31 else 0
  }

  lemma RoomsFrom(room: nat, attempts: seq<Attempt>, later: seq<nat>)
    requires attempts != [] && Rooms(room + if room < |attempts[0].chunks| then 31 else 0, attempts[1..], later)
    ensures Rooms(room, attempts, [room] + later) && |later| == |attempts|
  {
    var rooms := [room] + later;
    forall i | 0 <= i < |attempts|
      ensures rooms[i + 1] == rooms[i] + if rooms[i] < |attempts[i].chunks| then 31 else 0
    {
      if i > 0 { assert later[i] == later[i - 1] + if later[i - 1] < |attempts[1..][i - 1].chunks| then 31 else 0; }
    }
  }

  /** An attempt is the last one if its chunks fit and no rename raced with it, or if they do not fit and no memory is left. */
  predicate Ends(a: Attempt, room: nat) {
    if |a.chunks| <= room then !a.raced else !a.memory
  }

  /**
   handle_path goes on up to the first attempt that ends it. If the chunks of that one fit they are kept, otherwise
   references were lost.
   */
  lemma {:induction false} ClimbMeans(room: nat, attempts: seq<Attempt>) returns (rooms: seq<nat>, k: nat)
    ensures Rooms(room, attempts, rooms) && k <= |attempts|
    ensures forall i | 0 <= i < k :: !Ends(attempts[i], rooms[i])
    ensures var r := Climb(room, attempts);
            if k == |attempts| then r.outcome == Retrying && r.kept == []
            else && Ends(attempts[k], rooms[k])
                 && if |attempts[k].chunks| <= rooms[k] then r.outcome == Collected && r.kept == attempts[k].chunks
                    else r.outcome == Lost && r.kept == []
    decreases |attempts|
  {
    if attempts == [] {
      rooms, k := [room], 0;
    } else {
      var a := attempts[0];
      var next := room + if room < |a.chunks| then 31 else 0;
      var later, n := ClimbMeans(next, attempts[1..]);
      RoomsFrom(room, attempts, later);
      hide Rooms, Ends;
      rooms := [room] + later;
      k := if Ends(a, room) then 0 else n + 1;
      assert forall i | 0 < i < |attempts| :: attempts[i] == attempts[1..][i - 1] && rooms[i] == later[i - 1];
    }
  }

  /** What one attempt does to the contents, the references given back and the free slots. */
  predicate Tried(a: Attempt, room: int, contents: seq<Chunk>, puts: seq<Chunk>,
                  outcome: Outcome, contents': seq<Chunk>, puts': seq<Chunk>, room': int)
  {
    && room >= 0
    && if room < |a.chunks| then
         && outcome == (if a.memory then Retrying else Lost) && contents' == contents
         && puts' == puts + ([a.chunks[room]] + a.chunks[..room]) && room' == room + (if a.memory then 31 else 0)
       else if a.raced then
         outcome == Retrying && contents' == contents && puts' == puts + a.chunks && room' == room
       else outcome == Collected && contents' == contents + a.chunks && puts' == puts
  }

  lemma BackTracked(a: Attempt, room: nat, was: seq<Chunk>, mid: seq<Chunk>, puts: seq<Chunk>, drop: Option<Chunk>,
                    outcome: Outcome, contents': seq<Chunk>, puts': seq<Chunk>, room': int)
    requires a.raced || drop.Some?
    requires if room < |a.chunks| then drop == Some(a.chunks[room]) && mid == was + a.chunks[..room]
             else drop == None && mid == was + a.chunks
    requires contents' == mid[..|was|]
    requires puts' == puts + (if drop.Some? then [drop.value] else []) + mid[|was|..]
    requires outcome == (if drop.Some? && !a.memory then Lost else Retrying)
    requires room' == room + if drop.Some? && a.memory then 31 else 0
    ensures Tried(a, room, was, puts, outcome, contents', puts', room')
  {
    assert mid[..|was|] == was;
  }

  lemma WentThrough(a: Attempt, room: nat, was: seq<Chunk>, puts: seq<Chunk>, contents': seq<Chunk>, room': int)
    requires !a.raced && room >= |a.chunks| && contents' == was + a.chunks
    ensures Tried(a, room, was, puts, Collected, contents', puts, room')
  {
  }

  /** The account of all attempts, seen after the first k of them made `puts` of `puts0`. */
  ghost predicate Agrees(all: Account, puts0: seq<Chunk>, puts: seq<Chunk>, room: int, rest: seq<Attempt>) {
    && room >= 0
    && var r := Climb(room, rest);
       all.outcome == r.outcome && all.kept == r.kept && puts0 + all.back == puts + r.back
  }

  lemma AgreesNext(all: Account, puts0: seq<Chunk>, puts: seq<Chunk>, room: int, rest: seq<Attempt>, contents: seq<Chunk>,
                   outcome: Outcome, contents': seq<Chunk>, puts': seq<Chunk>, room': int)
    requires rest != [] && Agrees(all, puts0, puts, room, rest)
    requires Tried(rest[0], room, contents, puts, outcome, contents', puts', room')
    ensures if outcome == Retrying then Agrees(all, puts0, puts', room', rest[1..]) && contents' == contents
            else all.outcome == outcome && contents' == contents + all.kept && puts' == puts0 + all.back
  {
  }

  /** struct audit_tree_refs. */
  class Node {
    var next: Node?
    const c: array<Slot>

    constructor ()
      ensures next == null && fresh(c) && c.Length == 31 && forall i | 0 <= i < 31 :: c[i] == Null
    {
      next := null;
      c := new Slot[31](_ => Null);
    }
  }

  /** The part of struct audit_context that holds the references, and the log of audit_put_chunk. */
  class Context {
    var firstTrees: Node?
    var trees: Node?
    var treeCount: nat
    var auditable: bool
    var puts: seq<Chunk>
    ghost var nodes: seq<Node>
    ghost var cur: nat
    ghost var contents: seq<Chunk>

    ghost predicate Linked()
      reads this, nodes
    {
      && (forall i {:trigger nodes[i].next} | 0 <= i < |nodes| :: nodes[i].next == if i + 1 < |nodes| then nodes[i + 1] else null)
      && (forall i, j | 0 <= i < j < |nodes| :: nodes[i] != nodes[j] && nodes[i].c != nodes[j].c)
      && (forall i | 0 <= i < |nodes| :: nodes[i].c.Length == 31)
      && firstTrees == (if nodes == [] then null else nodes[0])
      && (if nodes == [] then trees == null && treeCount == 0 && cur == 0
          else cur < |nodes| && trees == nodes[cur] && treeCount <= 31)
    }

    /** How many references come before the end of data (p, count) when p is node i. */
    static function Position(p: Node?, i: nat, count: nat): int {
      if p == null then 0 else 31 * i + 31 - count
    }

    /** The filled slots, read from the first node on and from slot 30 down, are the references in the order they came. */
    ghost predicate Valid()
      reads this, nodes, set n | n in nodes :: n.c
    {
      && Linked()
      && |contents| == Position(trees, cur, treeCount)
      && forall i, j {:trigger nodes[i].c[j]} | 0 <= i < |nodes| && 0 <= j < 31 && 31 * i + 30 - j < |contents| ::
           nodes[i].c[j] == Ref(contents[31 * i + 30 - j])
    }

    ghost function Room(): int
      reads this
    {
      31 * |nodes| - |contents|
    }

    /** Where the references end. */
    lemma EndOfData()
      requires Valid()
      ensures Room() >= 0 && Position(trees, cur, treeCount) == |contents|
      ensures if trees == null then treeCount == 0 else cur < |nodes| && trees == nodes[cur] && treeCount <= 31
    {
    }

    constructor ()
      ensures Valid() && contents == [] && puts == [] && nodes == [] && !auditable
    {
      firstTrees, trees, treeCount, auditable, puts := null, null, 0, false, [];
      nodes, cur, contents := [], 0, [];
    }

    /** put_tree_ref: appends, unless every slot of every node is taken. */
    method PutTreeRef(chunk: Chunk) returns (ok: bool)
      requires Valid()
      modifies this, set n | n in nodes :: n.c
      ensures Valid() && nodes == old(nodes) && puts == old(puts) && auditable == old(auditable)
      ensures ok <==> old(Room()) > 0
      ensures contents == if ok then old(contents) + [chunk] else old(contents)
      ensures !ok ==> trees == old(trees) && treeCount == old(treeCount) && cur == old(cur)
      ensures ok ==> trees != null
    {
      var p := trees;
      var left := treeCount;
      if left != 0 {
        left := left - 1;
        p.c[left] := Ref(chunk);
        treeCount := left;
        contents := contents + [chunk];
        return true;
      }
      if p == null {
        return false;
      }
      assert p.next == nodes[cur].next;
      p := p.next;
      if p != null {
        p.c[30] := Ref(chunk);
        trees := p;
        treeCount := 30;
        cur := cur + 1;
        contents := contents + [chunk];
        return true;
      }
      return false;
    }

    /** grow_tree_refs: a new empty node behind the last one, if memory allows. */
    method GrowTreeRefs(memory: bool) returns (ok: bool)
      requires Valid() && Room() == 0
      modifies this, nodes
      ensures Valid() && puts == old(puts) && auditable == old(auditable) && contents == old(contents)
      ensures ok == memory
      ensures if ok then |nodes| == |old(nodes)| + 1 && nodes[..|old(nodes)|] == old(nodes) && fresh(nodes[|old(nodes)|])
                         && fresh(nodes[|old(nodes)|].c)
              else nodes == old(nodes) && trees == old(trees) && treeCount == old(treeCount) && cur == old(cur)
    {
      var p := trees;
      if !memory {
        return false;
      }
      var q := new Node();
      trees := q;
      if p != null {
        assert p == nodes[cur] && cur == |nodes| - 1;
        p.next := q;
      } else {
        firstTrees := q;
      }
      treeCount := 31;
      cur := |nodes|;
      nodes := nodes + [q];
      assert forall i | 0 <= i < |nodes| - 1 :: nodes[i] == old(nodes)[i] && nodes[i] != q && nodes[i].c != q.c;
      assert Linked();
      return true;
    }

    /** The references before `low` and from `done` on are still in their slots. */
    ghost predicate Holding(all: seq<Chunk>, low: nat, done: int)
      requires Linked()
      reads this, nodes, set n | n in nodes :: n.c
    {
      forall i, j {:trigger nodes[i].c[j]} | 0 <= i < |nodes| && 0 <= j < 31 ::
        var k := 31 * i + 30 - j;
        k < |all| && (k < low || done <= k) ==> nodes[i].c[j] == Ref(all[k])
    }

    /** The references from `low` on have been dropped up to `done`. */
    ghost predicate Dropped(before: seq<Chunk>, all: seq<Chunk>, low: nat, done: nat)
      requires Linked() && low <= done <= |all|
      reads this, nodes, set n | n in nodes :: n.c
    {
      Holding(all, low, done) && puts == before + all[low..done]
    }

    /** The inner loops of unroll_tree_refs: drops the references in slots from n - 1 down to `to` of node i. */
    method DropSlots(q: Node, n: nat, to: nat,
                     ghost i: nat, ghost before: seq<Chunk>, ghost all: seq<Chunk>, ghost low: nat, ghost done: nat)
      requires Linked() && i < |nodes| && q == nodes[i] && to <= n <= 31
      requires low <= done == 31 * i + 31 - n && done + n - to <= |all| && Dropped(before, all, low, done)
      modifies this`puts, q.c
      ensures Linked() && Dropped(before, all, low, done + n - to)
    {
      var m := n;
      ghost var k := done;
      while m > to
        invariant to <= m <= n && k == done + n - m && Linked() && Dropped(before, all, low, k)
      {
        m := m - 1;
        assert nodes[i].c[m] == Ref(all[k]);
        puts := puts + [q.c[m].chunk];
        q.c[m] := Null;
        assert all[low..k + 1] == all[low..k] + [all[k]];
        k := k + 1;
      }
    }

    /** Node i, up to the one that holds the end of data. */
    lemma NodeAt(i: nat)
      requires Linked() && trees != null && i <= cur
      ensures cur < |nodes| && treeCount <= 31 && (nodes[i] == trees <==> i == cur)
      ensures i < cur ==> nodes[i].next == nodes[i + 1]
    {
    }

    lemma NoneDropped(all: seq<Chunk>, low: nat)
      requires Linked() && low <= |all| && Holding(all, low, low)
      ensures Dropped(puts, all, low, low)
    {
    }

    lemma AllDropped(before: seq<Chunk>, all: seq<Chunk>, low: nat)
      requires Linked() && low <= |all| && Dropped(before, all, low, |all|)
      ensures Holding(all, low, |all|) && puts == before + all[low..]
    {
    }

    /** The loop over the nodes before the one that holds the end of data; n is the slot to go on from there. */
    method DropNodes(first: Node, count: nat, ghost from: nat, ghost before: seq<Chunk>, ghost all: seq<Chunk>, ghost low: nat)
      returns (n: nat)
      requires Linked() && trees != null && from <= cur < |nodes| && first == nodes[from] && count <= 31
      requires |all| == 31 * cur + 31 - treeCount && low == 31 * from + 31 - count <= |all|
      requires Dropped(before, all, low, low)
      modifies this`puts, set n | n in nodes :: n.c
      ensures Linked() && n <= 31 && low <= 31 * cur + 31 - n <= |all|
      ensures Dropped(before, all, low, 31 * cur + 31 - n)
    {
      hide Dropped, Linked;
      var q := first;
      n := count;
      ghost var i, done := from, low;
      while q != trees
        invariant Linked() && from <= i <= cur && q == nodes[i] && n <= 31
        invariant low <= done == 31 * i + 31 - n <= |all| && Dropped(before, all, low, done)
        decreases cur - i
      {
        NodeAt(i);
        DropSlots(q, n, 0, i, before, all, low, done);
        q, n, i, done := q.next, 31, i + 1, done + n;
      }
      NodeAt(i);
    }

    /** From slot n - 1 of node `from` on to the end of data. */
    method DropFrom(first: Node, count: nat, ghost from: nat, ghost all: seq<Chunk>)
      requires Linked() && from <= cur && from < |nodes| && first == nodes[from] && count <= 31 && trees != null
      requires |all| == Position(trees, cur, treeCount) && Position(first, from, count) <= |all|
      requires Holding(all, Position(first, from, count), Position(first, from, count))
      modifies this`puts, set n | n in nodes :: n.c
      ensures Linked() && Holding(all, Position(first, from, count), |all|)
      ensures puts == old(puts) + all[Position(first, from, count)..]
    {
      hide Dropped, Linked, Holding;
      NodeAt(cur);
      ghost var before, low := puts, Position(first, from, count);
      NoneDropped(all, low);
      var n := DropNodes(first, count, from, before, all, low);
      DropSlots(trees, n, treeCount, cur, before, all, low, 31 * cur + 31 - n);
      AllDropped(before, all, low);
    }

    /** The references from slot n of node `from` on are dropped, and the data ends there. */
    method CutBack(first: Node, n: nat, ghost from: nat)
      requires Valid() && from <= cur && from < |nodes| && first == nodes[from] && n <= 31
      requires Position(first, from, n) <= |contents|
      modifies this, set n | n in nodes :: n.c
      ensures Valid() && nodes == old(nodes) && auditable == old(auditable) && cur == from
      ensures contents == old(contents)[..Position(first, from, n)]
      ensures puts == old(puts) + old(contents)[Position(first, from, n)..]
    {
      DropFrom(first, n, from, contents);
      trees := first;
      treeCount := n;
      cur := from;
      contents := contents[..Position(first, from, n)];
    }

    /**
     unroll_tree_refs back to an earlier end of data (p, count): the references that came after are
     dropped once each, in the order they came, and exactly the earlier ones remain.
     */
    method UnrollTreeRefs(p: Node?, count: nat, ghost at: nat)
      requires Valid()
      requires p == null ==> count == 0
      requires p != null ==> at <= cur && at < |nodes| && p == nodes[at] && count <= 31 && Position(p, at, count) <= |contents|
      modifies this, set n | n in nodes :: n.c
      ensures Valid() && nodes == old(nodes) && auditable == old(auditable)
      ensures contents == old(contents)[..Position(p, at, count)]
      ensures puts == old(puts) + old(contents)[Position(p, at, count)..]
      ensures p != null ==> cur == at
    {
      var first, n := p, count;
      ghost var from := at;
      if first == null {
        first, n, from := firstTrees, 31, 0;
        if first == null {
          return;
        }
      }
      CutBack(first, n, from);
    }

    /** match_tree_refs searches exactly the references held. */
    method MatchTreeRefs(tree: Option<Tree>, matches: (Chunk, Tree) -> bool) returns (r: bool)
      requires Valid()
      ensures r <==> tree.Some? && exists k | 0 <= k < |contents| :: matches(contents[k], tree.value)
    {
      if tree.None? {
        return false;
      }
      var p := firstTrees;
      ghost var i := 0;
      while p != trees
        invariant nodes != [] ==> i <= cur && p == nodes[i]
        invariant nodes == [] ==> p == null
        invariant forall k | 0 <= k < 31 * i && k < |contents| :: !matches(contents[k], tree.value)
        decreases cur - i
      {
        var n := 0;
        while n < 31
          invariant 0 <= n <= 31
          invariant forall k | 31 * i + 31 - n <= k < 31 * i + 31 :: !matches(contents[k], tree.value)
        {
          assert nodes[i].c[n] == Ref(contents[31 * i + 30 - n]);
          if matches(p.c[n].chunk, tree.value) {
            return true;
          }
          n := n + 1;
        }
        assert p.next == nodes[i].next;
        p, i := p.next, i + 1;
      }
      if p != null {
        assert i == cur;
        var n := treeCount;
        while n < 31
          invariant treeCount <= n <= 31
          invariant forall k | 31 * i + 31 - n <= k < |contents| :: !matches(contents[k], tree.value)
        {
          assert nodes[i].c[n] == Ref(contents[31 * i + 30 - n]);
          if matches(p.c[n].chunk, tree.value) {
            return true;
          }
          n := n + 1;
        }
      }
      return false;
    }

    /** handle_one: the looked-up chunk is kept, or given back when no slot can be had. */
    method HandleOne(lookup: Option<Chunk>, memory: bool)
      requires Valid()
      modifies this, nodes, set n | n in nodes :: n.c
      ensures Valid()
      ensures lookup.None? ==> contents == old(contents) && puts == old(puts) && auditable == old(auditable)
      ensures lookup.Some? && (old(Room()) > 0 || memory) ==>
                contents == old(contents) + [lookup.value] && puts == old(puts) && auditable == old(auditable)
      ensures lookup.Some? && old(Room()) == 0 && !memory ==>
                contents == old(contents) && puts == old(puts) + [lookup.value] && auditable
    {
      EndOfData();
      hide Valid;
      var p, count := trees, treeCount;
      ghost var at := cur;
      if lookup.None? {
        return;
      }
      var chunk := lookup.value;
      var ok := PutTreeRef(chunk);
      if ok {
        return;
      }
      var grown := GrowTreeRefs(memory);
      if !grown {
        auditable := true;
        puts := puts + [chunk];
        UnrollTreeRefs(p, count, at);
        return;
      }
      ok := PutTreeRef(chunk);
    }

    /** One climb: puts the chunks until one finds no slot. */
    method ClimbOnce(chunks: seq<Chunk>) returns (drop: Option<Chunk>)
      requires Valid()
      modifies this, set n | n in nodes :: n.c
      ensures Valid() && nodes == old(nodes) && puts == old(puts) && auditable == old(auditable) && cur >= old(cur)
      ensures old(Room()) >= 0
      ensures if old(Room()) < |chunks| then drop == Some(chunks[old(Room())]) && contents == old(contents) + chunks[..old(Room())]
              else drop == None && contents == old(contents) + chunks
    {
      drop := None;
      var k := 0;
      while k < |chunks|
        invariant Valid() && nodes == old(nodes) && puts == old(puts) && auditable == old(auditable) && cur >= old(cur)
        invariant k <= |chunks| && contents == old(contents) + chunks[..k]
      {
        var ok := PutTreeRef(chunks[k]);
        if !ok {
          return Some(chunks[k]);
        }
        assert chunks[..k + 1] == chunks[..k] + [chunks[k]];
        k := k + 1;
      }
      assert chunks[..k] == chunks;
    }

    /** (p, count) was read off as the end of data when the contents were what they are now. */
    ghost predicate Snapshot(p: Node?, count: nat, at: nat)
      reads this
    {
      && (p == null ==> count == 0)
      && (p != null ==> at <= cur && at < |nodes| && p == nodes[at] && count <= 31)
      && Position(p, at, count) == |contents|
    }

    /** Nodes are only ever added behind the old ones. */
    twostate predicate Extended()
      reads this, nodes
    {
      old(nodes) <= nodes && forall i | |old(nodes)| <= i < |nodes| :: fresh(nodes[i]) && fresh(nodes[i].c)
    }

    /** A climb found no slot: its last chunk is given back, the list grows if it can, and the others are given back. */
    method BackOut(drop: Chunk, memory: bool, p: Node?, count: nat, ghost at: nat) returns (outcome: Outcome)
      requires Valid() && Room() == 0
      requires p == null ==> count == 0
      requires p != null ==> at <= cur && at < |nodes| && p == nodes[at] && count <= 31
      requires Position(p, at, count) <= |contents|
      modifies this, nodes, set n | n in nodes :: n.c
      ensures Valid() && Snapshot(p, count, at) && Extended() && |nodes| == |old(nodes)| + (if memory then 1 else 0)
      ensures contents == old(contents)[..Position(p, at, count)]
      ensures puts == old(puts) + [drop] + old(contents)[Position(p, at, count)..]
      ensures outcome == if memory then Retrying else Lost
      ensures auditable == (old(auditable) || outcome == Lost)
    {
      puts := puts + [drop];
      assert Valid();
      hide Valid;
      var grown := GrowTreeRefs(memory);
      UnrollTreeRefs(p, count, at);
      if grown {
        return Retrying;
      }
      auditable := true;
      return Lost;
    }

    /** The way back from a climb that raced with a rename or found no slot. */
    method BackTrack(drop: Option<Chunk>, memory: bool, p: Node?, count: nat, ghost at: nat) returns (outcome: Outcome)
      requires Valid() && (drop.Some? ==> Room() == 0)
      requires p == null ==> count == 0
      requires p != null ==> at <= cur && at < |nodes| && p == nodes[at] && count <= 31
      requires Position(p, at, count) <= |contents|
      modifies this, nodes, set n | n in nodes :: n.c
      ensures Valid() && Snapshot(p, count, at) && Extended()
      ensures |nodes| == |old(nodes)| + (if drop.Some? && memory then 1 else 0)
      ensures contents == old(contents)[..Position(p, at, count)]
      ensures puts == old(puts) + (if drop.Some? then [drop.value] else []) + old(contents)[Position(p, at, count)..]
      ensures outcome == if drop.Some? && !memory then Lost else Retrying
      ensures auditable == (old(auditable) || outcome == Lost)
    {
      if drop.None? {
        UnrollTreeRefs(p, count, at);
        return Retrying;
      }
      outcome := BackOut(drop.value, memory, p, count, at);
    }

    /** One round of handle_path. */
    method TryPath(a: Attempt, p: Node?, count: nat, ghost at: nat) returns (outcome: Outcome)
      requires Valid() && Snapshot(p, count, at)
      modifies this, nodes, set n | n in nodes :: n.c
      ensures Valid() && Extended()
      ensures Snapshot(p, count, at) || outcome == Collected
      ensures Tried(a, old(Room()), old(contents), old(puts), outcome, contents, puts, Room())
      ensures auditable == (old(auditable) || outcome == Lost)
    {
      hide Valid, Tried;
      ghost var was, gave, room := contents, puts, Room();
      var drop := ClimbOnce(a.chunks);
      if a.raced || drop.Some? {
        ghost var mid := contents;
        outcome := BackTrack(drop, a.memory, p, count, at);
        BackTracked(a, room, was, mid, gave, drop, outcome, contents, puts, Room());
      } else {
        outcome := Collected;
        WentThrough(a, room, was, gave, contents, Room());
      }
    }

    /**
     handle_path over its retries: the references collected on the climb that went through are kept,
     all others are given back, and a lost reference makes the context auditable.
     */
    method HandlePath(attempts: seq<Attempt>) returns (outcome: Outcome)
      requires Valid()
      modifies this, nodes, set n | n in nodes :: n.c
      ensures Valid() && old(Room()) >= 0
      ensures outcome == Climb(old(Room()), attempts).outcome
      ensures contents == old(contents) + Climb(old(Room()), attempts).kept
      ensures puts == old(puts) + Climb(old(Room()), attempts).back
      ensures auditable == (old(auditable) || outcome == Lost)
    {
      var p, count := trees, treeCount;
      ghost var at := cur;
      var k := 0;
      while k < |attempts|
        invariant k <= |attempts| && Valid() && Snapshot(p, count, at) && contents == old(contents) && auditable == old(auditable)
        invariant old(Room()) >= 0 && Agrees(Climb(old(Room()), attempts), old(puts), puts, Room(), attempts[k..])
        invariant Extended()
      {
        ghost var room, gave := Room(), puts;
        outcome := TryPath(attempts[k], p, count, at);
        AgreesNext(Climb(old(Room()), attempts), old(puts), gave, room, attempts[k..], old(contents), outcome, contents, puts, Room());
        if outcome != Retrying {
          return;
        }
        assert attempts[k..][1..] == attempts[k + 1..];
        k := k + 1;
      }
      return Retrying;
    }
  }
}
