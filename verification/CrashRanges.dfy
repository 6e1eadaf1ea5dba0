/**
 crash_exclude_mem_range of kernel/crash_core.c: taking an interval out of a sorted array of memory
 ranges, in place.
 */
module CrashRanges {

  const ENOMEM := 12

  /** Both ends belong to the range. */
  datatype Range = Range(start: nat, end: nat)

  predicate Overlaps(r: Range, lo: nat, hi: nat) {
    !(lo > r.end || hi < r.start)
  }

  predicate Inside(r: Range, lo: nat, hi: nat) {
    lo <= r.start && r.end <= hi
  }

  /** The interval lies strictly inside the range, which has to be split. */
  predicate Splits(r: Range, lo: nat, hi: nat) {
    r.start < lo && hi < r.end
  }

  ghost predicate Ordered(rs: seq<Range>) {
    && (forall i | 0 <= i < |rs| :: rs[i].start <= rs[i].end)
    && (forall i, j | 0 <= i < j < |rs| :: rs[i].end < rs[j].start)
  }

  /** Some range holds the address. */
  ghost predicate Covers(rs: seq<Range>, x: nat) {
    exists i | 0 <= i < |rs| :: rs[i].start <= x <= rs[i].end
  }

  /** What is left of a range that is partly covered by the interval. */
  function Trim(r: Range, lo: nat, hi: nat): seq<Range>
    requires Overlaps(r, lo, hi) && !Inside(r, lo, hi)
  {
    if Splits(r, lo, hi) then [Range(r.start, lo - 1), Range(hi + 1, r.end)]
    else if r.start < lo then [Range(r.start, lo - 1)]
    else [Range(hi + 1, r.end)]
  }

  /** The whole operation: ranges inside the interval go, the first one partly covered is trimmed, and that is the end. */
  function Exclude(rs: seq<Range>, lo: nat, hi: nat): seq<Range> {
    if rs == [] then []
    else if !Overlaps(rs[0], lo, hi) then [rs[0]] + Exclude(rs[1..], lo, hi)
    else if Inside(rs[0], lo, hi) then Exclude(rs[1..], lo, hi)
    else Trim(rs[0], lo, hi) + rs[1..]
  }

  lemma OrderedCons(r: Range, rs: seq<Range>)
    requires Ordered(rs) && r.start <= r.end && forall i | 0 <= i < |rs| :: r.end < rs[i].start
    ensures Ordered([r] + rs)
  {
  }

  lemma OrderedTail(rs: seq<Range>)
    requires Ordered(rs) && rs != []
    ensures Ordered(rs[1..]) && forall i | 0 <= i < |rs[1..]| :: rs[0].end < rs[1..][i].start
  {
  }

  /** The ranges stay sorted, disjoint and non-empty, and none starts before the first did. */
  lemma {:induction false} ExcludeOrdered(rs: seq<Range>, lo: nat, hi: nat, low: nat)
    requires Ordered(rs) && lo <= hi && forall i | 0 <= i < |rs| :: low <= rs[i].start
    ensures Ordered(Exclude(rs, lo, hi)) && forall i | 0 <= i < |Exclude(rs, lo, hi)| :: low <= Exclude(rs, lo, hi)[i].start
  {
    if rs != [] {
      OrderedTail(rs);
      var r, rest := rs[0], rs[1..];
      if !Overlaps(r, lo, hi) {
        ExcludeOrdered(rest, lo, hi, r.end + 1);
        OrderedCons(r, Exclude(rest, lo, hi));
      } else if Inside(r, lo, hi) {
        ExcludeOrdered(rest, lo, hi, low);
      } else if Splits(r, lo, hi) {
        OrderedCons(Range(hi + 1, r.end), rest);
        OrderedCons(Range(r.start, lo - 1), [Range(hi + 1, r.end)] + rest);
        assert Trim(r, lo, hi) + rest == [Range(r.start, lo - 1)] + ([Range(hi + 1, r.end)] + rest);
      } else {
        OrderedCons(Trim(r, lo, hi)[0], rest);
      }
    }
  }

  lemma CoversConcat(a: seq<Range>, b: seq<Range>, x: nat)
    ensures Covers(a + b, x) <==> Covers(a, x) || Covers(b, x)
  {
    if Covers(a, x) {
      var i :| 0 <= i < |a| && a[i].start <= x <= a[i].end;
      assert (a + b)[i] == a[i];
    }
    if Covers(b, x) {
      var i :| 0 <= i < |b| && b[i].start <= x <= b[i].end;
      assert (a + b)[|a| + i] == b[i];
    }
  }

  lemma CoversOne(r: Range, x: nat)
    ensures Covers([r], x) <==> r.start <= x <= r.end
  {
    assert [r][0] == r;
  }

  lemma TrimCovers(r: Range, lo: nat, hi: nat, x: nat)
    requires Overlaps(r, lo, hi) && !Inside(r, lo, hi) && lo <= hi
    ensures Covers(Trim(r, lo, hi), x) <==> r.start <= x <= r.end && !(lo <= x <= hi)
  {
    var t := Trim(r, lo, hi);
    CoversOne(t[0], x);
    if Splits(r, lo, hi) {
      CoversOne(t[1], x);
      CoversConcat([t[0]], [t[1]], x);
      assert t == [t[0]] + [t[1]];
    } else {
      assert t == [t[0]];
    }
  }

  /** Where the operation stops: nothing partly covered comes before another overlapping range. */
  ghost predicate Reaches(rs: seq<Range>, lo: nat, hi: nat) {
    forall i, j | 0 <= i < j < |rs| && Overlaps(rs[i], lo, hi) && Overlaps(rs[j], lo, hi) :: Inside(rs[i], lo, hi)
  }

  /** No address is added, and none outside the interval is taken away. */
  lemma {:induction false} ExcludeSafe(rs: seq<Range>, lo: nat, hi: nat, x: nat)
    requires Ordered(rs) && lo <= hi
    ensures Covers(Exclude(rs, lo, hi), x) ==> Covers(rs, x)
    ensures Covers(rs, x) && !(lo <= x <= hi) ==> Covers(Exclude(rs, lo, hi), x)
  {
    if rs != [] {
      OrderedTail(rs);
      var r, rest := rs[0], rs[1..];
      assert rs == [r] + rest;
      CoversConcat([r], rest, x);
      CoversOne(r, x);
      if !Overlaps(r, lo, hi) {
        ExcludeSafe(rest, lo, hi, x);
        CoversConcat([r], Exclude(rest, lo, hi), x);
      } else if Inside(r, lo, hi) {
        ExcludeSafe(rest, lo, hi, x);
      } else {
        TrimCovers(r, lo, hi, x);
        CoversConcat(Trim(r, lo, hi), rest, x);
      }
    }
  }

  lemma {:induction false} ExcludeAll(rs: seq<Range>, lo: nat, hi: nat, x: nat)
    requires Ordered(rs) && lo <= x <= hi && Reaches(rs, lo, hi)
    ensures !Covers(Exclude(rs, lo, hi), x)
  {
    if rs != [] {
      OrderedTail(rs);
      var r, rest := rs[0], rs[1..];
      assert forall j | 0 <= j < |rest| :: rest[j] == rs[j + 1];
      if !Overlaps(r, lo, hi) {
        ExcludeAll(rest, lo, hi, x);
        CoversConcat([r], Exclude(rest, lo, hi), x);
        CoversOne(r, x);
      } else if Inside(r, lo, hi) {
        ExcludeAll(rest, lo, hi, x);
      } else {
        TrimCovers(r, lo, hi, x);
        CoversConcat(Trim(r, lo, hi), rest, x);
      }
    }
  }

  /** A range partly covered stops the operation before the next overlapping one. */
  lemma {:induction false} ExcludeLeaves(rs: seq<Range>, lo: nat, hi: nat, i: nat, j: nat) returns (x: nat)
    requires Ordered(rs) && lo <= hi && i < j < |rs|
    requires Overlaps(rs[i], lo, hi) && Overlaps(rs[j], lo, hi) && !Inside(rs[i], lo, hi)
    ensures lo <= x <= hi && Covers(Exclude(rs, lo, hi), x)
  {
    OrderedTail(rs);
    var r, rest := rs[0], rs[1..];
    if Overlaps(r, lo, hi) && !Inside(r, lo, hi) {
      x := rs[j].start;
      assert rest[j - 1] == rs[j];
      assert Covers(rest, x);
      CoversConcat(Trim(r, lo, hi), rest, x);
    } else {
      x := ExcludeLeaves(rest, lo, hi, i - 1, j - 1);
      CoversConcat([r], Exclude(rest, lo, hi), x);
    }
  }

  ghost predicate Excluded(rs: seq<Range>, lo: nat, hi: nat) {
    forall x: nat | lo <= x <= hi :: !Covers(rs, x)
  }

  /** The whole interval is excluded exactly when the first range partly covered is the last one overlapping. */
  lemma ExcludeExact(rs: seq<Range>, lo: nat, hi: nat)
    requires Ordered(rs) && lo <= hi
    ensures Excluded(Exclude(rs, lo, hi), lo, hi) <==> Reaches(rs, lo, hi)
  {
    if Reaches(rs, lo, hi) {
      forall x: nat | lo <= x <= hi ensures !Covers(Exclude(rs, lo, hi), x) { ExcludeAll(rs, lo, hi, x); }
    } else {
      var i, j :| 0 <= i < j < |rs| && Overlaps(rs[i], lo, hi) && Overlaps(rs[j], lo, hi) && !Inside(rs[i], lo, hi);
      var x := ExcludeLeaves(rs, lo, hi, i, j);
      hide Covers, Exclude;
      assert !Excluded(Exclude(rs, lo, hi), lo, hi);
    }
  }

  /** Two ranges that the interval joins: the part of the second one stays in. */
  lemma ExcludeInexact(rs: seq<Range>)
    requires rs == [Range(0, 9), Range(20, 29)]
    ensures Ordered(rs) && !Reaches(rs, 5, 24) && Covers(Exclude(rs, 5, 24), 20)
  {
    assert Overlaps(rs[0], 5, 24) && Overlaps(rs[1], 5, 24) && !Inside(rs[0], 5, 24);
    assert Exclude(rs, 5, 24) == [Range(0, 4)] + rs[1..];
    assert Exclude(rs, 5, 24)[1] == Range(20, 29);
  }

  /** What the whole operation comes to, when the loop is at position i of the ranges as they are now. */
  function Rest(now: seq<Range>, i: nat, lo: nat, hi: nat): seq<Range>
    requires i <= |now|
  {
    now[..i] + Exclude(now[i..], lo, hi)
  }

  lemma Begin(now: seq<Range>, lo: nat, hi: nat)
    ensures Rest(now, 0, lo, hi) == Exclude(now, lo, hi)
  {
    assert now[..0] == [] && now[0..] == now;
  }

  lemma Skip(now: seq<Range>, i: nat, lo: nat, hi: nat)
    requires i < |now| && !Overlaps(now[i], lo, hi)
    ensures Rest(now, i, lo, hi) == Rest(now, i + 1, lo, hi)
  {
    assert now[i..][1..] == now[i + 1..] && now[..i + 1] == now[..i] + [now[i]];
  }

  lemma Drop(now: seq<Range>, i: nat, lo: nat, hi: nat)
    requires i < |now| && Overlaps(now[i], lo, hi) && Inside(now[i], lo, hi)
    ensures Rest(now, i, lo, hi) == Rest(now[..i] + now[i + 1..], i, lo, hi)
  {
    var next := now[..i] + now[i + 1..];
    assert now[i..][1..] == now[i + 1..] && next[..i] == now[..i] && next[i..] == now[i + 1..];
  }

  lemma Cut(now: seq<Range>, i: nat, lo: nat, hi: nat)
    requires i < |now| && Overlaps(now[i], lo, hi) && !Inside(now[i], lo, hi)
    ensures Rest(now, i, lo, hi) == now[..i] + Trim(now[i], lo, hi) + now[i + 1..]
  {
    assert now[i..][1..] == now[i + 1..];
  }

  lemma Over(now: seq<Range>, lo: nat, hi: nat)
    ensures Rest(now, |now|, lo, hi) == now
  {
    assert now[..|now|] == now && now[|now|..] == [];
  }

  /** Nothing else overlaps an interval strictly inside a range. */
  lemma OnlyOne(rs: seq<Range>, i: nat, lo: nat, hi: nat, k: nat)
    requires Ordered(rs) && lo <= hi && i < |rs| && Splits(rs[i], lo, hi) && k < |rs| && k != i
    ensures !Overlaps(rs[k], lo, hi)
  {
  }

  // No room for a split.

  /** A full array of `max` ranges in which one before the last has to be split: the check for a free slot misses it. */
  ghost predicate Overruns(rs: seq<Range>, max: nat, lo: nat, hi: nat) {
    |rs| == max && exists i | 0 <= i < |rs| - 1 :: Splits(rs[i], lo, hi)
  }

  /** A full array whose last range has to be split, which the check does see. */
  predicate NoMemory(rs: seq<Range>, max: nat, lo: nat, hi: nat) {
    |rs| == max > 0 && Splits(rs[max - 1], lo, hi)
  }

  lemma {:induction false} ExcludeLength(rs: seq<Range>, lo: nat, hi: nat)
    requires Ordered(rs) && lo <= hi
    ensures |Exclude(rs, lo, hi)| <= |rs| + 1
    ensures |Exclude(rs, lo, hi)| == |rs| + 1 <==> exists i | 0 <= i < |rs| :: Splits(rs[i], lo, hi)
  {
    if rs != [] {
      OrderedTail(rs);
      var r, rest := rs[0], rs[1..];
      ExcludeLength(rest, lo, hi);
      assert rs == [r] + rest;
      assert Overlaps(r, lo, hi) && !Splits(r, lo, hi) ==> forall i | 0 <= i < |rs| :: !Splits(rs[i], lo, hi);
    }
  }

  /** The result needs a slot more than the array has exactly if one of the two happens. */
  lemma NeedsSlot(rs: seq<Range>, max: nat, lo: nat, hi: nat)
    requires Ordered(rs) && lo <= hi && |rs| <= max
    ensures |Exclude(rs, lo, hi)| > max <==> Overruns(rs, max, lo, hi) || NoMemory(rs, max, lo, hi)
  {
    ExcludeLength(rs, lo, hi);
    if |rs| == max && exists i | 0 <= i < |rs| :: Splits(rs[i], lo, hi) {
      var i :| 0 <= i < |rs| && Splits(rs[i], lo, hi);
      if i == max - 1 { assert NoMemory(rs, max, lo, hi); } else { assert Overruns(rs, max, lo, hi); }
    }
  }

  lemma NotBoth(rs: seq<Range>, max: nat, lo: nat, hi: nat)
    requires Ordered(rs) && lo <= hi && NoMemory(rs, max, lo, hi)
    ensures !Overruns(rs, max, lo, hi)
  {
    forall i | 0 <= i < |rs| - 1 ensures !Splits(rs[i], lo, hi) { OnlyOne(rs, max - 1, lo, hi, i); }
  }

  /** Two ranges in an array of two: splitting the first puts the second into a third slot. */
  lemma OverrunExample(rs: seq<Range>)
    requires rs == [Range(0, 9), Range(20, 29)]
    ensures Ordered(rs) && Overruns(rs, 2, 4, 5)
    ensures Exclude(rs, 4, 5) == [Range(0, 3), Range(6, 9), Range(20, 29)]
  {
    assert Splits(rs[0], 4, 5);
    assert Exclude(rs, 4, 5) == Trim(rs[0], 4, 5) + rs[1..];
  }

  /** struct crash_mem. */
  class CrashMem {
    const maxNrRanges: nat
    // The array of maxNrRanges ranges, and the memory right behind it as one more slot.
    const ranges: array<Range>
    var nrRanges: nat

    ghost predicate Valid()
      reads this
    {
      nrRanges <= ranges.Length == maxNrRanges + 1
    }

    /** The slot behind the array. */
    ghost function Behind(): Range
      requires Valid()
      reads this, ranges
    {
      ranges[maxNrRanges]
    }

    ghost function Contents(): seq<Range>
      requires Valid()
      reads this, ranges
    {
      ranges[..nrRanges]
    }

    /** The ranges after position i move one slot to the left, over it. */
    method ShiftLeft(i: nat)
      requires Valid() && i < nrRanges
      modifies this, ranges
      ensures Valid() && Contents() == old(Contents())[..i] + old(Contents())[i + 1..]
      ensures old(nrRanges) <= maxNrRanges ==> Behind() == old(Behind())
    {
      ghost var was := Contents();
      var j := i;
      while j < nrRanges - 1
        invariant i <= j <= nrRanges - 1 && nrRanges == old(nrRanges)
        invariant forall k | 0 <= k < nrRanges && (k < i || j <= k) :: ranges[k] == was[k]
        invariant nrRanges <= maxNrRanges ==> Behind() == old(Behind())
        invariant forall k | i <= k < j :: ranges[k] == was[k + 1]
      {
        ranges[j] := ranges[j + 1];
        j := j + 1;
      }
      nrRanges := nrRanges - 1;
      assert forall k | 0 <= k < nrRanges :: ranges[k] == (was[..i] + was[i + 1..])[k];
    }

    /** The ranges from position j on move one slot to the right, and r takes the place. */
    method Insert(j: nat, r: Range)
      requires Valid() && j <= nrRanges <= maxNrRanges
      modifies this, ranges
      ensures Valid() && Contents() == old(Contents())[..j] + [r] + old(Contents())[j..]
      ensures old(nrRanges) < maxNrRanges ==> Behind() == old(Behind())
    {
      ghost var was := Contents();
      var i := nrRanges;
      while i > j
        invariant j <= i <= nrRanges && nrRanges == old(nrRanges)
        invariant forall k | 0 <= k < i :: ranges[k] == was[k]
        invariant forall k | i < k <= nrRanges :: ranges[k] == was[k - 1]
        invariant nrRanges < maxNrRanges ==> Behind() == old(Behind())
      {
        ranges[i] := ranges[i - 1];
        i := i - 1;
      }
      ranges[j] := r;
      nrRanges := nrRanges + 1;
      assert forall k | 0 <= k < nrRanges :: ranges[k] == (was[..j] + [r] + was[j..])[k];
    }

    /** A range partly covered is cut short, or split unless it is in the last slot. */
    method CutAt(i: nat, lo: nat, hi: nat) returns (err: int)
      requires Valid() && i < nrRanges <= maxNrRanges && Overlaps(ranges[i], lo, hi) && !Inside(ranges[i], lo, hi)
      modifies this, ranges
      ensures Valid()
      ensures err == if Splits(old(ranges[i]), lo, hi) && i == maxNrRanges - 1 then -ENOMEM else 0
      ensures err == 0 ==> Contents() == old(Contents())[..i] + Trim(old(ranges[i]), lo, hi) + old(Contents())[i + 1..]
      ensures err != 0 ==> Contents() == old(Contents())[..i] + [Range(old(ranges[i]).start, lo - 1)]
      ensures nrRanges <= maxNrRanges ==> Behind() == old(Behind())
    {
      var r := ranges[i];
      if r.start < lo && hi < r.end {
        ranges[i] := Range(r.start, lo - 1);
        if i == maxNrRanges - 1 {
          return -ENOMEM;
        }
        Insert(i + 1, Range(hi + 1, r.end));
      } else if r.start < lo {
        ranges[i] := Range(r.start, lo - 1);
      } else {
        ranges[i] := Range(hi + 1, r.end);
      }
      return 0;
    }

    /**
     crash_exclude_mem_range. A split needs a free slot; without one only a split of the last range is noticed, after that
     range has been cut short. A split before it moves the last range behind the array.
     */
    method ExcludeMemRange(lo: nat, hi: nat) returns (err: int)
      requires Valid() && nrRanges <= maxNrRanges && Ordered(Contents()) && lo <= hi
      modifies this, ranges
      ensures Valid()
      ensures err == if NoMemory(old(Contents()), maxNrRanges, lo, hi) then -ENOMEM else 0
      ensures err == 0 ==> Contents() == Exclude(old(Contents()), lo, hi)
      ensures err != 0 ==> Contents() == old(Contents())[..old(nrRanges) - 1] + [Range(old(ranges[nrRanges - 1]).start, lo - 1)]
      ensures nrRanges == maxNrRanges + 1 <==> Overruns(old(Contents()), maxNrRanges, lo, hi)
      ensures Behind() == if Overruns(old(Contents()), maxNrRanges, lo, hi) then old(ranges[nrRanges - 1]) else old(Behind())
    {
      hide Exclude, Rest, Ordered, Overruns;
      ghost var was := Contents();
      var i := 0;
      Begin(was, lo, hi);
      NeedsSlot(was, maxNrRanges, lo, hi);
      while i < nrRanges
        invariant Valid() && i <= nrRanges <= |was| && Behind() == old(Behind())
        invariant Exclude(was, lo, hi) == Rest(Contents(), i, lo, hi)
        invariant nrRanges == |was| ==> Contents() == was
        invariant forall k | 0 <= k < |was| && Splits(was[k], lo, hi) :: nrRanges == |was| && i <= k
        decreases nrRanges - i
      {
        var r := ranges[i];
        ghost var now := Contents();
        if lo > r.end || hi < r.start {
          Skip(now, i, lo, hi);
          i := i + 1;
          continue;
        }
        forall k | 0 <= k < |was| && Splits(was[k], lo, hi) ensures k == i {
          if k != i { OnlyOne(was, k, lo, hi, i); }
        }
        if lo <= r.start && r.end <= hi {
          Drop(now, i, lo, hi);
          ShiftLeft(i);
          continue;
        }
        Cut(now, i, lo, hi);
        err := CutAt(i, lo, hi);
        if err != 0 { NotBoth(was, maxNrRanges, lo, hi); }
        assert nrRanges > maxNrRanges ==> Behind() == Contents()[maxNrRanges] == was[maxNrRanges - 1];
        return;
      }
      Over(Contents(), lo, hi);
      return 0;
    }
  }
}
