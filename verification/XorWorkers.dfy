/**
 The parallel XOR system calls of Practica2: how the buffer is cut into one segment per worker, and
 what workers that run in any order, and may be stopped at any byte, leave in it.
 */
module XorWorkers {
  import opened Wrappers

  type Byte = bv8

  const EINTR := 4

  datatype Segment = Segment(start: nat, end: nat)

  /** The segments follow each other from 0 to the length. */
  ghost predicate Tiles(segs: seq<Segment>, len: nat) {
    && segs != [] && segs[0].start == 0 && segs[|segs| - 1].end == len
    && (forall i | 0 <= i < |segs| :: segs[i].start <= segs[i].end)
    && (forall i {:trigger segs[i].start} | 0 < i < |segs| :: segs[i - 1].end == segs[i].start)
  }

  function Product(n: nat, size: nat): nat {
    if n == 0 then 0 else size + Product(n - 1, size)
  }

  lemma ProductMore(n: nat, size: nat)
    requires n > 0
    ensures Product(n, size) == size + Product(n - 1, size)
  {
  }

  lemma TilesMore(segs: seq<Segment>, offset: nat, end: nat)
    requires if segs == [] then offset == 0 else Tiles(segs, offset)
    requires offset <= end
    ensures Tiles(segs + [Segment(offset, end)], end)
  {
  }

  /** The loop that sets up the workers. */
  method SplitBy(len: nat, threads: nat, size: nat) returns (segs: seq<Segment>)
    requires threads >= 1 && Product(threads, size) <= len
    ensures |segs| == threads && Tiles(segs, len)
    ensures forall i | 0 <= i < threads - 1 :: segs[i].end == segs[i].start + size
  {
    hide Product;
    var offset := 0;
    segs := [];
    var i := 0;
    while i < threads
      invariant 0 <= i <= threads && |segs| == i && 0 <= offset && offset + Product(threads - i, size) <= len
      invariant i == 0 ==> offset == 0
      invariant i > 0 ==> Tiles(segs, if i == threads then len else offset)
      invariant forall k | 0 <= k < i && k < threads - 1 :: segs[k].end == segs[k].start + size
    {
      ProductMore(threads - i, size);
      var end := if i == threads - 1 then len else offset + size;
      TilesMore(segs, offset, end);
      segs := segs + [Segment(offset, end)];
      offset := offset + size;
      i := i + 1;
    }
  }

  lemma ProductIs(n: nat, size: nat)
    ensures Product(n, size) == n * size
  {
  }

  lemma Division(len: nat, threads: nat)
    requires threads >= 1
    ensures Product(threads, len / threads) <= len
  {
    ProductIs(threads, len / threads);
  }

  /** Both system calls: equal segments, the last of which takes what the division leaves over. */
  method Split(len: nat, threads: nat) returns (segs: seq<Segment>)
    requires threads >= 1
    ensures |segs| == threads && Tiles(segs, len)
    ensures forall i | 0 <= i < threads - 1 :: segs[i].end == segs[i].start + len / threads
  {
    Division(len, threads);
    segs := SplitBy(len, threads, len / threads);
  }

  lemma {:induction false} TilesOrder(segs: seq<Segment>, len: nat, i: nat, j: nat)
    requires Tiles(segs, len) && i < j < |segs|
    ensures segs[i].end <= segs[j].start
    decreases j
  {
    if i < j - 1 {
      TilesOrder(segs, len, i, j - 1);
      assert segs[j - 1].end == segs[j].start;
    } else {
      assert segs[j - 1].end == segs[j].start;
    }
  }

  /** Every byte lies in one segment. */
  lemma {:induction false} TilesCover(segs: seq<Segment>, len: nat, x: nat, n: nat) returns (i: nat)
    requires Tiles(segs, len) && n < |segs| && x < segs[n].end
    ensures i <= n && segs[i].start <= x < segs[i].end
    decreases n
  {
    if segs[n].start <= x {
      i := n;
    } else {
      assert n > 0;
      assert segs[n - 1].end == segs[n].start;
      i := TilesCover(segs, len, x, n - 1);
    }
  }

  /** And only in one. */
  lemma TilesUnique(segs: seq<Segment>, len: nat, x: nat, i: nat, j: nat)
    requires Tiles(segs, len) && i < |segs| && j < |segs|
    requires segs[i].start <= x < segs[i].end && segs[j].start <= x < segs[j].end
    ensures i == j
  {
    if i < j { TilesOrder(segs, len, i, j); }
    if j < i { TilesOrder(segs, len, j, i); }
  }

  function XorAt(data: seq<Byte>, key: seq<Byte>, x: nat): Byte
    requires x < |data| && key != []
  {
    data[x] ^ key[x % |key|]
  }

  /** The whole buffer encrypted. */
  function XorAll(data: seq<Byte>, key: seq<Byte>): (r: seq<Byte>)
    requires key != []
    ensures |r| == |data| && forall x | 0 <= x < |data| :: r[x] == data[x] ^ key[x % |key|]
  {
    seq(|data|, x requires 0 <= x < |data| => XorAt(data, key, x))
  }

  lemma XorBack(a: Byte, k: Byte)
    ensures (a ^ k) ^ k == a
  {
  }

  lemma XorTwice(data: seq<Byte>, key: seq<Byte>)
    requires key != []
    ensures XorAll(XorAll(data, key), key) == data
  {
    forall x | 0 <= x < |data| ensures XorAll(XorAll(data, key), key)[x] == data[x] {
      assert XorAll(data, key)[x] == data[x] ^ key[x % |key|];
      XorBack(data[x], key[x % |key|]);
    }
  }

  /** xor_encrypt_worker and xor_decrypt_worker once they hold the mutex: a prefix of the segment is done, all of it unless stopped. */
  method Worker(buffer: array<Byte>, key: seq<Byte>, seg: Segment, shouldStop: nat -> bool) returns (status: int, idx: nat)
    requires key != [] && seg.start <= seg.end <= buffer.Length
    modifies buffer
    ensures seg.start <= idx <= seg.end && (status == 0 || status == -4)
    ensures status == 0 ==> idx == seg.end
    ensures status != 0 ==> idx < seg.end && shouldStop(idx)
    ensures forall x | seg.start <= x < idx :: !shouldStop(x)
    ensures forall x | 0 <= x < buffer.Length ::
              buffer[x] == if seg.start <= x < idx then old(buffer[x]) ^ key[x % |key|] else old(buffer[x])
  {
    idx := seg.start;
    while idx < seg.end
      invariant seg.start <= idx <= seg.end
      invariant forall x | seg.start <= x < idx :: !shouldStop(x)
      invariant forall x | 0 <= x < buffer.Length ::
                  buffer[x] == if seg.start <= x < idx then XorAt(old(buffer[..]), key, x) else old(buffer[x])
    {
      if shouldStop(idx) {
        return -EINTR, idx;
      }
      buffer[idx] := buffer[idx] ^ key[idx % |key|];
      idx := idx + 1;
    }
    return 0, idx;
  }

  // Many workers at once.

  datatype Phase = Ready | Working | Stopped | Complete
  datatype State = State(buffer: seq<Byte>, phase: seq<Phase>, idx: seq<nat>, holder: Option<nat>)

  datatype Action =
    | Lock(w: nat)       // mutex_lock_interruptible succeeds
    | GiveUp(w: nat)     // it is interrupted, or the thread is stopped before it starts
    | Xor(w: nat)        // one byte
    | Stop(w: nat)       // kthread_should_stop answers yes
    | Finish(w: nat)     // the end of the segment

  function Init(data: seq<Byte>, segs: seq<Segment>): State {
    State(data, seq(|segs|, _ => Ready), seq(|segs|, i requires 0 <= i < |segs| => segs[i].start), None)
  }

  predicate Shaped(s: State, segs: seq<Segment>) {
    |s.phase| == |s.idx| == |segs|
  }

  function Next(s: State, key: seq<Byte>, segs: seq<Segment>, a: Action): Option<State>
    requires Shaped(s, segs) && key != []
  {
    var w := a.w;
    if w >= |segs| then None
    else
      match a
      case Lock(_) => if s.phase[w] == Ready && s.holder == None then Some(s.(phase := s.phase[w := Working], holder := Some(w))) else None
      case GiveUp(_) => if s.phase[w] == Ready then Some(s.(phase := s.phase[w := Stopped])) else None
      case Xor(_) =>
        var x := s.idx[w];
        if s.phase[w] == Working && x < segs[w].end && x < |s.buffer|
        then Some(s.(buffer := s.buffer[x := XorAt(s.buffer, key, x)], idx := s.idx[w := x + 1])) else None
      case Stop(_) =>
        if s.phase[w] == Working && s.idx[w] < segs[w].end
        then Some(s.(phase := s.phase[w := Stopped], holder := None)) else None
      case Finish(_) =>
        if s.phase[w] == Working && s.idx[w] == segs[w].end
        then Some(s.(phase := s.phase[w := Complete], holder := None)) else None
  }

  /** Byte x of worker w's segment: encrypted once if the worker has passed it, untouched otherwise. */
  ghost predicate ByteOk(s: State, data: seq<Byte>, key: seq<Byte>, segs: seq<Segment>, w: nat, x: nat)
    requires key != [] && Shaped(s, segs) && w < |segs| && x < |data| && |s.buffer| == |data|
  {
    s.buffer[x] == if x < s.idx[w] then XorAt(data, key, x) else data[x]
  }

  ghost predicate WorkerOk(s: State, segs: seq<Segment>, w: nat)
    requires Shaped(s, segs) && w < |segs|
  {
    && segs[w].start <= s.idx[w] <= segs[w].end
    && (s.phase[w] == Ready ==> s.idx[w] == segs[w].start)
    && (s.phase[w] == Complete ==> s.idx[w] == segs[w].end)
    && (s.phase[w] == Working <==> s.holder == Some(w))
  }

  ghost predicate Inv(s: State, data: seq<Byte>, key: seq<Byte>, segs: seq<Segment>)
    requires key != []
  {
    && Shaped(s, segs) && |s.buffer| == |data| && Tiles(segs, |data|)
    && (forall w | 0 <= w < |segs| :: WorkerOk(s, segs, w))
    && (forall w, x | 0 <= w < |segs| && segs[w].start <= x < segs[w].end && x < |data| :: ByteOk(s, data, key, segs, w, x))
  }

  lemma InitOk(data: seq<Byte>, key: seq<Byte>, segs: seq<Segment>)
    requires key != [] && Tiles(segs, |data|)
    ensures Inv(Init(data, segs), data, key, segs)
  {
  }

  lemma XorKeeps(s: State, data: seq<Byte>, key: seq<Byte>, segs: seq<Segment>, v: nat)
    requires key != [] && Inv(s, data, key, segs) && Next(s, key, segs, Xor(v)).Some?
    ensures Inv(Next(s, key, segs, Xor(v)).value, data, key, segs)
  {
    var t := Next(s, key, segs, Xor(v)).value;
    var y := s.idx[v];
    assert WorkerOk(s, segs, v) && ByteOk(s, data, key, segs, v, y);
    forall w | 0 <= w < |segs| ensures WorkerOk(t, segs, w) { assert WorkerOk(s, segs, w); }
    forall w, x | 0 <= w < |segs| && segs[w].start <= x < segs[w].end && x < |data| ensures ByteOk(t, data, key, segs, w, x) {
      assert ByteOk(s, data, key, segs, w, x);
      if x == y { TilesUnique(segs, |data|, x, v, w); }
    }
  }

  lemma NextKeeps(s: State, data: seq<Byte>, key: seq<Byte>, segs: seq<Segment>, a: Action)
    requires key != [] && Inv(s, data, key, segs) && Next(s, key, segs, a).Some?
    ensures Inv(Next(s, key, segs, a).value, data, key, segs)
  {
    if a.Xor? {
      XorKeeps(s, data, key, segs, a.w);
    } else {
      var t := Next(s, key, segs, a).value;
      forall w | 0 <= w < |segs| ensures WorkerOk(t, segs, w) { assert WorkerOk(s, segs, w) && WorkerOk(s, segs, a.w); }
      forall w, x | 0 <= w < |segs| && segs[w].start <= x < segs[w].end && x < |data| ensures ByteOk(t, data, key, segs, w, x) {
        assert ByteOk(s, data, key, segs, w, x);
      }
    }
  }

  function Exec(s: State, key: seq<Byte>, segs: seq<Segment>, run: seq<Action>): Option<State>
    requires key != [] && Shaped(s, segs)
    decreases |run|
  {
    if run == [] then Some(s)
    else
      var t := Next(s, key, segs, run[0]);
      if t.None? then None else Exec(t.value, key, segs, run[1..])
  }

  lemma {:induction false} RunKeeps(s: State, data: seq<Byte>, key: seq<Byte>, segs: seq<Segment>, run: seq<Action>)
    requires key != [] && Inv(s, data, key, segs) && Exec(s, key, segs, run).Some?
    ensures Inv(Exec(s, key, segs, run).value, data, key, segs)
    decreases |run|
  {
    if run != [] {
      NextKeeps(s, data, key, segs, run[0]);
      RunKeeps(Next(s, key, segs, run[0]).value, data, key, segs, run[1..]);
    }
  }

  /** Under every schedule and every stop, a worker has encrypted a prefix of its own segment once, and nothing else is touched. */
  lemma AnySchedule(data: seq<Byte>, key: seq<Byte>, segs: seq<Segment>, run: seq<Action>, w: nat, x: nat)
    requires key != [] && Tiles(segs, |data|) && Exec(Init(data, segs), key, segs, run).Some?
    requires w < |segs| && segs[w].start <= x < segs[w].end && x < |data|
    ensures var s := Exec(Init(data, segs), key, segs, run).value;
            && Shaped(s, segs) && |s.buffer| == |data| && segs[w].start <= s.idx[w] <= segs[w].end
            && s.buffer[x] == if x < s.idx[w] then data[x] ^ key[x % |key|] else data[x]
  {
    InitOk(data, key, segs);
    RunKeeps(Init(data, segs), data, key, segs, run);
    var s := Exec(Init(data, segs), key, segs, run).value;
    assert WorkerOk(s, segs, w) && ByteOk(s, data, key, segs, w, x);
  }

  ghost predicate AllComplete(s: State) {
    forall w | 0 <= w < |s.phase| :: s.phase[w] == Complete
  }

  /** If all workers complete, the result is the whole buffer encrypted, however many there were. */
  lemma CompleteRun(data: seq<Byte>, key: seq<Byte>, segs: seq<Segment>, run: seq<Action>)
    requires key != [] && Tiles(segs, |data|) && Exec(Init(data, segs), key, segs, run).Some?
    requires AllComplete(Exec(Init(data, segs), key, segs, run).value)
    ensures Exec(Init(data, segs), key, segs, run).value.buffer == XorAll(data, key)
  {
    var s := Exec(Init(data, segs), key, segs, run).value;
    InitOk(data, key, segs);
    RunKeeps(Init(data, segs), data, key, segs, run);
    forall x | 0 <= x < |data| ensures s.buffer[x] == XorAll(data, key)[x] {
      var w := TilesCover(segs, |data|, x, |segs| - 1);
      assert WorkerOk(s, segs, w) && ByteOk(s, data, key, segs, w, x) && s.phase[w] == Complete;
    }
  }

  /** Decrypting with any number of threads restores what was encrypted with any number of threads. */
  lemma Restores(data: seq<Byte>, key: seq<Byte>, segs: seq<Segment>, run: seq<Action>, segs': seq<Segment>, run': seq<Action>)
    requires key != [] && Tiles(segs, |data|) && Tiles(segs', |data|) && Exec(Init(data, segs), key, segs, run).Some?
    requires AllComplete(Exec(Init(data, segs), key, segs, run).value)
    requires var coded := Exec(Init(data, segs), key, segs, run).value.buffer;
             Exec(Init(coded, segs'), key, segs', run').Some? && AllComplete(Exec(Init(coded, segs'), key, segs', run').value)
    ensures var coded := Exec(Init(data, segs), key, segs, run).value.buffer;
            Exec(Init(coded, segs'), key, segs', run').value.buffer == data
  {
    CompleteRun(data, key, segs, run);
    var coded := Exec(Init(data, segs), key, segs, run).value.buffer;
    CompleteRun(coded, key, segs', run');
    XorTwice(data, key);
  }

  /** Some worker has gone past byte x. */
  ghost predicate Passed(s: State, segs: seq<Segment>, x: nat)
    requires Shaped(s, segs)
  {
    exists w | 0 <= w < |segs| :: segs[w].start <= x < segs[w].end && x < s.idx[w]
  }

  /** So under every schedule and every stop the bytes passed are encrypted, and the others are not. */
  lemma PassedBytes(data: seq<Byte>, key: seq<Byte>, segs: seq<Segment>, run: seq<Action>, x: nat)
    requires key != [] && Tiles(segs, |data|) && Exec(Init(data, segs), key, segs, run).Some? && x < |data|
    ensures var s := Exec(Init(data, segs), key, segs, run).value;
            && Shaped(s, segs) && |s.buffer| == |data|
            && s.buffer[x] == if Passed(s, segs, x) then data[x] ^ key[x % |key|] else data[x]
  {
    hide Exec, XorAt;
    var s := Exec(Init(data, segs), key, segs, run).value;
    var w := TilesCover(segs, |data|, x, |segs| - 1);
    AnySchedule(data, key, segs, run, w, x);
    if Passed(s, segs, x) {
      var v :| 0 <= v < |segs| && segs[v].start <= x < segs[v].end && x < s.idx[v];
      TilesUnique(segs, |data|, x, v, w);
    }
  }

  lemma XorChanges(a: Byte, k: Byte)
    ensures a ^ k == a <==> k == 0
  {
    assert (a ^ k) ^ a == k;
  }

  /** One byte, passed or not by the two runs. */
  lemma ByteBack(a: Byte, k: Byte, first: bool, second: bool)
    ensures var b := if first then a ^ k else a;
            (if second then b ^ k else b) == a <==> (k != 0 ==> (first <==> second))
  {
    XorChanges(a, k);
    XorBack(a, k);
  }

  /** Whatever was stopped in either run, the data is restored exactly if every byte that the key changes was passed in both
      runs or in neither. */
  lemma RestoresExactly(data: seq<Byte>, key: seq<Byte>, segs: seq<Segment>, run: seq<Action>, segs': seq<Segment>, run': seq<Action>)
    requires key != [] && Tiles(segs, |data|) && Tiles(segs', |data|) && Exec(Init(data, segs), key, segs, run).Some?
    requires Exec(Init(Exec(Init(data, segs), key, segs, run).value.buffer, segs'), key, segs', run').Some?
    ensures var s := Exec(Init(data, segs), key, segs, run).value;
            var t := Exec(Init(s.buffer, segs'), key, segs', run').value;
            && Shaped(s, segs) && Shaped(t, segs')
            && (t.buffer == data <==>
                forall x | 0 <= x < |data| && key[x % |key|] != 0 :: Passed(s, segs, x) <==> Passed(t, segs', x))
  {
    hide Exec, Tiles, Passed;
    var s := Exec(Init(data, segs), key, segs, run).value;
    InitOk(data, key, segs);
    RunKeeps(Init(data, segs), data, key, segs, run);
    var t := Exec(Init(s.buffer, segs'), key, segs', run').value;
    InitOk(s.buffer, key, segs');
    RunKeeps(Init(s.buffer, segs'), s.buffer, key, segs', run');
    forall x | 0 <= x < |data|
      ensures t.buffer[x] == data[x] <==> (key[x % |key|] != 0 ==> (Passed(s, segs, x) <==> Passed(t, segs', x)))
    {
      PassedBytes(data, key, segs, run, x);
      PassedBytes(s.buffer, key, segs', run', x);
      ByteBack(data[x], key[x % |key|], Passed(s, segs, x), Passed(t, segs', x));
    }
  }
}
