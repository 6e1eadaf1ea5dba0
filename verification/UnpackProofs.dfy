/**
 Every action of the unpacker keeps `Sane`, makes progress or stops for a reason, and follows the
 reference reader `Cpio.Feed` on the bytes it eats.
 */
module UnpackProofs {
  import opened Wrappers
  import opened Cpio
  import opened UnpackSteps

  /** Where in the stream the machine stands. */
  function Abs(fs: Fs, m: Machine): Stream
    requires Sane(m)
  {
    if m.message.Some? then Failed(m.events)
    else
    match m.state
    case Start => Stream(Gather(WantHeader, []), m.thisHeader, m.links, m.events)
    case Collect =>
      Stream(Gather(WantedFor(m.nextState, m.hdr), m.acc), m.thisHeader, m.links, m.events)
    case SkipIt =>
      if m.nextState == Reset then SkipFor(m.nextHeader - m.thisHeader, m.thisHeader, m.links, m.events) else Bad
    case CopyFile => EnterBody(m.hdr, m.thisHeader, m.links, m.events)
    case Reset => Stream(Between, m.thisHeader, m.links, m.events)
    case _ => Finish(fs, WantedFor(m.state, m.hdr), m.acc, m.thisHeader, m.links, m.events)
  }

  function Eaten(m: Machine, n: Machine): seq<byte>
    requires m.victim <= n.victim <= |m.buf|
  {
    m.buf[m.victim..n.victim]
  }

  function Rest(m: Machine): seq<byte>
    requires m.victim <= |m.buf|
  {
    m.buf[m.victim..]
  }

  /** The measure that write_buffer's loop decreases. */
  predicate Progress(m: Machine, n: Machine) {
    n.byteCount < m.byteCount || (n.byteCount == m.byteCount && Rank(n.state) < Rank(m.state))
  }

  /** Why the loop may stop: the chunk is used up, an error was raised, or Reset met a byte other than 0. */
  predicate Stopped(m: Machine) {
    && (Gathers(m.state) ==> m.message.Some?)
    && (m.state == CopyFile ==> m.hdr.bodyLen > 0)
    && (m.byteCount > 0 && m.message.None? ==>
          m.state == Reset && m.thisHeader % 4 == 0 && m.victim < |m.buf| && m.buf[m.victim] != 0)
  }

  /** What the rest of the chunk leads to. */
  function Outcome(fs: Fs, m: Machine): Stream
    requires Sane(m)
  {
    Feed(fs, Abs(fs, m), Rest(m))
  }

  predicate WriteFailed(m: Machine) {
    m.message == Some(WriteError)
  }

  /** The reading of the bytes eaten from m to n is what n stands for, or they are the business of nobody. */
  predicate Stands(fs: Fs, m: Machine, n: Machine)
    requires Sane(m) && Sane(n) && m.victim <= n.victim <= |m.buf|
  {
    var after := Feed(fs, Abs(fs, m), Eaten(m, n));
    WriteFailed(n) || after == Bad || Abs(fs, n) == after
  }

  /** From m to n: bytes are only eaten from the front, and the first error stays. */
  predicate Onward(m: Machine, n: Machine) {
    && n.buf == m.buf && m.victim <= n.victim
    && n.thisHeader == m.thisHeader + (n.victim - m.victim)
    && (m.message.Some? ==> n.message == m.message)
    && (m.writes == [] ==> n.writes == [] && (WriteFailed(n) ==> WriteFailed(m)))
  }

  /** From m to n: the rest of the chunk leads to the same, unless a write failed. */
  predicate Follows(fs: Fs, m: Machine, n: Machine)
    requires Sane(m) && Sane(n)
  {
    Onward(m, n) && (Outcome(fs, m) != Bad && !WriteFailed(n) ==> Outcome(fs, n) == Outcome(fs, m))
  }

  lemma StandsFollows(fs: Fs, m: Machine, n: Machine)
    requires Sane(m) && Sane(n) && Onward(m, n) && Stands(fs, m, n)
    ensures Follows(fs, m, n)
  {
    hide Feed, Abs;
    assert Rest(m) == Eaten(m, n) + Rest(n);
    FeedConcat(fs, Abs(fs, m), Eaten(m, n), Rest(n));
    FeedBad(fs, Rest(n));
  }

  lemma StartFollows(fs: Fs, m: Machine)
    requires Sane(m) && m.state == Start
    ensures var a := StartStep(m);
            && Sane(a.m) && Follows(fs, m, a.m)
            && !a.stop && Progress(m, a.m)
  {
    hide Feed, Finish, Unsigned, ParseHeader, Csum;
    var n := StartStep(m).m;
    if m.byteCount >= HEADER_SIZE {
      var s := Eaten(m, n);
      FeedGather(fs, WantHeader, [], s, m.thisHeader, m.links, m.events);
      assert [] + s == s;
    } else {
      assert Eaten(m, n) == [];
      FeedNothing(fs, Abs(fs, m));
    }
    StandsFollows(fs, m, n);
  }

  lemma CollectSane(m: Machine)
    requires Sane(m) && m.state == Collect
    ensures var a := CollectStep(m);
            && Sane(a.m)
            && if a.stop then Stopped(a.m) else Progress(m, a.m)
  {
    hide ParseHeader, Csum, Over, Unsigned;
  }

  lemma CollectFollows(fs: Fs, m: Machine)
    requires Sane(m) && m.state == Collect
    ensures Sane(CollectStep(m).m) && Follows(fs, m, CollectStep(m).m)
  {
    hide Feed, Finish, ParseHeader, Csum, Over, RoundUp4, Unsigned;
    CollectSane(m);
    var n := CollectStep(m).m;
    FeedGather(fs, WantedFor(m.nextState, m.hdr), m.acc, Eaten(m, n), m.thisHeader, m.links, m.events);
    StandsFollows(fs, m, n);
  }

  lemma SkipSane(m: Machine)
    requires Sane(m) && m.state == SkipIt
    ensures var a := SkipStep(m);
            && Sane(a.m)
            && if a.stop then Stopped(a.m) else Progress(m, a.m)
  {
    hide Unsigned, ParseHeader, Csum;
  }

  lemma SkipFollows(fs: Fs, m: Machine)
    requires Sane(m) && m.state == SkipIt
    ensures Sane(SkipStep(m).m) && Follows(fs, m, SkipStep(m).m)
  {
    hide Feed, Finish, Unsigned, ParseHeader, Csum, RoundUp4;
    SkipSane(m);
    var n := SkipStep(m).m;
    FeedBad(fs, Eaten(m, n));
    FeedFailed(fs, m.events, Eaten(m, n));
    FeedSkip(fs, m.nextHeader - m.thisHeader, Eaten(m, n), m.thisHeader, m.links, m.events);
    StandsFollows(fs, m, n);
  }

  lemma {:induction false} EatZerosShape(m: Machine)
    requires ChunkOk(m) && Short(m)
    ensures var n := EatZeros(m);
            && m.victim <= n.victim <= |m.buf| && n == Eat(m, n.victim - m.victim)
            && (forall i | 0 <= i < |Eaten(m, n)| :: Eaten(m, n)[i] == 0)
            && (n.byteCount > 0 ==> n.buf[n.victim] != 0)
    decreases m.byteCount
  {
    hide Unsigned;
    if m.byteCount > 0 && m.buf[m.victim] == 0 {
      EatZerosShape(Eat(m, 1));
      assert Eaten(m, EatZeros(m)) == [m.buf[m.victim]] + Eaten(Eat(m, 1), EatZeros(m));
    }
  }

  lemma ResetSane(m: Machine)
    requires Sane(m) && m.state == Reset
    ensures var n := ResetStep(m).m;
            && Sane(n) && Onward(m, n) && Stopped(n) && n.state == Reset && n.events == m.events && n.links == m.links
            && (forall i | 0 <= i < |Eaten(m, n)| :: Eaten(m, n)[i] == 0)
            && (m.message.None? && n.message.Some? ==> n.byteCount > 0 && n.thisHeader % 4 != 0 && n.buf[n.victim] != 0)
  {
    hide Unsigned;
    EatZerosShape(m);
    assert Eaten(m, ResetStep(m).m) == Eaten(m, EatZeros(m));
  }

  lemma ResetFollows(fs: Fs, m: Machine)
    requires Sane(m) && m.state == Reset
    ensures var a := ResetStep(m);
            && Sane(a.m) && Follows(fs, m, a.m) && a.stop && Stopped(a.m)
  {
    hide Feed, Finish, EatZeros, Unsigned;
    ResetSane(m);
    var n := ResetStep(m).m;
    if m.message.None? && n.message.Some? {
      var mid := Stream(Between, n.thisHeader, m.links, m.events);
      FeedZeros(fs, Eaten(m, n), m.thisHeader, m.links, m.events);
      assert Rest(m) == Eaten(m, n) + Rest(n) && Rest(n)[0] == n.buf[n.victim];
      FeedConcat(fs, Abs(fs, m), Eaten(m, n), Rest(n));
      FeedJunk(fs, Rest(n), n.thisHeader, m.links, m.events);
      FeedFailed(fs, n.events, Rest(n));
    } else {
      FeedFailed(fs, m.events, Eaten(m, n));
      FeedZeros(fs, Eaten(m, n), m.thisHeader, m.links, m.events);
      StandsFollows(fs, m, n);
    }
  }

  lemma ParsedSane(m: Machine, h: Header)
    requires Sane(m) && m.state == GotHeader && (m.message.None? || WriteFailed(m))
    ensures Sane(ParsedStep(m, h)) && Onward(m, ParsedStep(m, h)) && Progress(m, ParsedStep(m, h))
    ensures ParsedStep(m, h).message == m.message
  {
    hide ParseHeader, Unsigned;
    var n := ParsedStep(m, h);
    if n.state == SkipIt {
      assert n.nextState == m.nextState && n.acc == m.acc && n.place == m.place;
      assert NAlign(h.nameLen) >= 2;
      assert n.nextHeader > n.thisHeader;
    } else {
      assert n.state == Collect || n.state == GotName;
    }
  }

  lemma ParsedStands(fs: Fs, m: Machine, h: Header)
    requires Sane(m) && m.state == GotHeader && m.message.None?
    ensures Sane(ParsedStep(m, h)) && Onward(m, ParsedStep(m, h))
    ensures var n := ParsedStep(m, h);
            var after := Feed(fs, Enter(h, m.thisHeader, m.links, m.events), Eaten(m, n));
            after == Bad || Abs(fs, n) == after
  {
    hide Feed, Finish, RoundUp4, Leftover, Csum, ParseHeader, Unsigned;
    ParsedSane(m, h);
    var n := ParsedStep(m, h);
    var s := Eaten(m, n);
    if n.victim == m.victim {
      assert s == [];
      FeedNothing(fs, Enter(h, m.thisHeader, m.links, m.events));
    } else {
      FeedGather(fs, WantName(h), [], s, m.thisHeader, m.links, m.events);
      assert [] + s == s;
    }
  }

  lemma HeaderAbs(fs: Fs, m: Machine)
    requires Sane(m) && m.state == GotHeader && m.message.None?
    ensures |m.acc| == HEADER_SIZE
    ensures Abs(fs, m) == AfterHeader(m.acc, m.thisHeader, m.links, m.events)
  {
    hide ParseHeader, Feed;
  }

  lemma HeaderFollows(fs: Fs, m: Machine)
    requires Sane(m) && m.state == GotHeader
    ensures var a := HeaderStep(m);
            && Sane(a.m) && Follows(fs, m, a.m)
            && if a.stop then Stopped(a.m) else Progress(m, a.m)
  {
    hide Feed, ParseHeader, ParsedStep, Finish;
    var parsed := ParseHeader(m.acc);
    var n := HeaderStep(m).m;
    if parsed.None? {
      assert Rest(n) == Rest(m);
      if m.message.None? { HeaderAbs(fs, m); }
    } else {
      ParsedSane(m, parsed.value);
      if m.message.None? {
        HeaderAbs(fs, m);
        ParsedStands(fs, m, parsed.value);
        StandsFollows(fs, m, n);
      }
    }
  }

  lemma NameSane(fs: Fs, m: Machine)
    requires Sane(m) && m.state == GotName
    ensures var a := NameStep(fs, m);
            && Sane(a.m) && Onward(m, a.m) && a.m.message == m.message && !a.stop && Progress(m, a.m)
  {
    hide NameRead, ParseHeader;
  }

  /** A string that ends among the first bytes is the same whatever comes behind them. */
  lemma {:induction false} CStringWithin(s: seq<byte>, t: seq<byte>)
    requires 0 in s
    ensures CString(s + t) == CString(s)
    decreases |s|
  {
    if s[0] != 0 {
      assert (s + t)[1..] == s[1..] + t;
      CStringWithin(s[1..], t);
    }
  }

  lemma NameFollows(fs: Fs, m: Machine)
    requires Sane(m) && m.state == GotName
    ensures Sane(NameStep(fs, m).m) && Follows(fs, m, NameStep(fs, m).m)
  {
    hide Feed, CString, Beyond, ParseHeader;
    NameSane(fs, m);
    var n := NameStep(fs, m).m;
    assert Eaten(m, n) == [];
    FeedNothing(fs, Abs(fs, m));
    if m.message.None? {
      if 0 in m.acc { CStringWithin(m.acc, Beyond(fs, m)); }
      StandsFollows(fs, m, n);
    }
  }

  lemma SymlinkFollows(fs: Fs, m: Machine)
    requires Sane(m) && m.state == GotSymlink
    ensures var a := SymlinkStep(m);
            && Sane(a.m) && Follows(fs, m, a.m) && !a.stop && Progress(m, a.m)
  {
    hide Feed, CString, ParseHeader;
    var n := SymlinkStep(m).m;
    assert Eaten(m, n) == [];
    FeedNothing(fs, Abs(fs, m));
    StandsFollows(fs, m, n);
  }

  lemma WriteShape(m: Machine, n: nat)
    requires Sane(m) && m.state == CopyFile && n <= m.byteCount
    ensures var m1 := WriteStep(m, n);
            && Writing(m1.events)
            && (m.hdr.csumPresent ==> m1.ioCsum == Csum(0, m1.events[|m1.events| - 1].data))
            && (m.writes == [] ==> m1.writes == [] && m1.message == m.message)
            && (m.message.Some? ==> m1.message == m.message)
            && (m1.message == m.message || WriteFailed(m1))
            && (m1.message.None? ==> m1.events == Written(m.events, m.buf[m.victim..m.victim + n]))
            && m1 == m.(events := m1.events, writes := m1.writes, ioCsum := m1.ioCsum, message := m1.message)
  {
    var out := Xwrite(n, m.writes).out;
    var s, data := m.buf[m.victim..m.victim + out], m.events[|m.events| - 1].data;
    CsumConcat(0, data, s);
  }

  lemma CopySane(m: Machine)
    requires Sane(m) && m.state == CopyFile
    ensures var a := CopyStep(m);
            && Sane(a.m) && Onward(m, a.m)
            && if a.stop then Stopped(a.m) else Progress(m, a.m)
  {
    hide ParseHeader, Unsigned, RoundUp4, WriteStep, Csum;
    WriteShape(m, if m.byteCount >= m.hdr.bodyLen then m.hdr.bodyLen else m.byteCount);
  }

  lemma CopyKeeps(m: Machine)
    requires Sane(m) && m.state == CopyFile
    ensures var n := CopyStep(m).m; n.links == m.links && n.place == m.place && n.acc == m.acc && n.nameBuf == m.nameBuf
  {
    hide ParseHeader, Csum, Xwrite, Unsigned;
  }

  /** Feeding a piece of the body, none of it included. */
  lemma ReadPiece(fs: Fs, m: Machine, s: seq<byte>)
    requires Sane(m) && m.state == CopyFile && m.message.None? && |s| <= m.hdr.bodyLen
    ensures Feed(fs, Abs(fs, m), s)
         == if |s| < m.hdr.bodyLen
            then Stream(InBody(m.hdr.bodyLen - |s|, m.hdr.Check()), m.thisHeader + |s|, m.links, Written(m.events, s))
            else AfterBody(m.hdr.Check(), m.thisHeader + |s|, m.links, Written(m.events, s))
  {
    hide Feed, Finish, ParseHeader;
    if s == [] {
      FeedNothing(fs, Abs(fs, m));
      assert m.events[|m.events| - 1].data + s == m.events[|m.events| - 1].data;
      assert Written(m.events, s) == m.events;
    } else {
      FeedBody(fs, m.hdr.bodyLen, m.hdr.Check(), s, m.thisHeader, m.links, m.events);
    }
  }

  lemma CopyMoreFollows(fs: Fs, m: Machine)
    requires Sane(m) && m.state == CopyFile && m.message.None? && m.byteCount < m.hdr.bodyLen
    ensures Sane(CopyStep(m).m) && Follows(fs, m, CopyStep(m).m)
  {
    hide Feed, Finish, ParseHeader, Unsigned;
    CopySane(m);
    var n := CopyStep(m).m;
    WriteShape(m, m.byteCount);
    ReadPiece(fs, m, Eaten(m, n));
    StandsFollows(fs, m, n);
  }

  lemma CopyDoneFollows(fs: Fs, m: Machine)
    requires Sane(m) && m.state == CopyFile && m.message.None? && m.byteCount >= m.hdr.bodyLen
    ensures Sane(CopyStep(m).m) && Follows(fs, m, CopyStep(m).m)
  {
    hide Feed, Finish, ParseHeader, Csum, ByteSum, Xwrite, Unsigned, RoundUp4, WriteStep;
    CopySane(m);
    var n := CopyStep(m).m;
    WriteShape(m, m.hdr.bodyLen);
    var written := WriteStep(m, m.hdr.bodyLen).events;
    CsumIsByteSum(written[|written| - 1].data);
    ReadPiece(fs, m, Eaten(m, n));
    StandsFollows(fs, m, n);
  }

  lemma CopyFollows(fs: Fs, m: Machine)
    requires Sane(m) && m.state == CopyFile
    ensures Sane(CopyStep(m).m) && Follows(fs, m, CopyStep(m).m)
  {
    hide Feed, Finish, CopyStep, ParseHeader;
    CopySane(m);
    if m.message.None? {
      if m.byteCount < m.hdr.bodyLen { CopyMoreFollows(fs, m); } else { CopyDoneFollows(fs, m); }
    }
  }

  /** Every action, on every input: it keeps Sane, follows the stream, and makes progress or stops for a reason. */
  lemma ActionFollows(fs: Fs, m: Machine)
    requires Sane(m)
    ensures var a := Action(fs, m);
            && Sane(a.m) && Follows(fs, m, a.m)
            && if a.stop then Stopped(a.m) else Progress(m, a.m)
  {
    hide Feed, Finish;
    match m.state
    case Start => StartFollows(fs, m);
    case Collect => CollectSane(m); CollectFollows(fs, m);
    case GotHeader => HeaderFollows(fs, m);
    case SkipIt => SkipSane(m); SkipFollows(fs, m);
    case GotName => NameSane(fs, m); NameFollows(fs, m);
    case CopyFile =>
      CopySane(m);
      CopyFollows(fs, m);
    case GotSymlink => SymlinkFollows(fs, m);
    case Reset => ResetFollows(fs, m);
  }

  lemma FollowsTrans(fs: Fs, a: Machine, b: Machine, c: Machine)
    requires Sane(a) && Sane(b) && Sane(c)
    requires Follows(fs, a, b) && Follows(fs, b, c)
    ensures Follows(fs, a, c)
  {
    hide Outcome;
  }

  /** A Start state with input left never stops without eating some of it. */
  lemma StartEats(fs: Fs, m: Machine)
    requires Sane(m) && (m.state == Start || m.state == Collect) && m.byteCount > 0
    ensures var n := Action(fs, m).m;
            n.byteCount < m.byteCount || (m.state == Start && n.state == Collect && n.byteCount == m.byteCount)
  {
    hide Feed, Finish;
  }

  lemma LoadSane(fs: Fs, m: Machine, chunk: seq<byte>)
    requires Resumable(m) && |chunk| < U32
    ensures Sane(Load(m, chunk)) && Abs(fs, Load(m, chunk)) == Abs(fs, m)
  {
    hide Feed, Finish;
  }

  /** A machine some way into a chunk that it loaded as m0. */
  predicate Underway(fs: Fs, m0: Machine, m: Machine) {
    && Sane(m0) && Sane(m) && Follows(fs, m0, m)
    && (m0.state == Start && m0.byteCount > 0 && m.byteCount == m0.byteCount ==> m.state == Start || m.state == Collect)
  }

  lemma BeginUnderway(fs: Fs, m0: Machine)
    requires Sane(m0)
    ensures Underway(fs, m0, m0)
  {
    hide Feed, Finish;
    assert Eaten(m0, m0) == [];
    FeedNothing(fs, Abs(fs, m0));
  }

  lemma StepUnderway(fs: Fs, m0: Machine, m: Machine)
    requires Underway(fs, m0, m)
    ensures var a := Action(fs, m);
            && Underway(fs, m0, a.m)
            && if a.stop then Stopped(a.m) else Progress(m, a.m)
  {
    hide Feed, Finish;
    ActionFollows(fs, m);
    if m.byteCount > 0 && (m.state == Start || m.state == Collect) {
      StartEats(fs, m);
    }
    FollowsTrans(fs, m0, m, Action(fs, m).m);
  }

  /** The outcome is still this one, unless a write failed. */
  predicate Keeps(fs: Fs, outcome: Stream, writes: seq<int>, m: Machine)
    requires Sane(m)
  {
    && (outcome != Bad && !WriteFailed(m) ==> Outcome(fs, m) == outcome)
    && (writes == [] ==> m.writes == [] && !WriteFailed(m))
  }

  lemma UnderwayKeeps(fs: Fs, m0: Machine, m: Machine, outcome: Stream, writes: seq<int>)
    requires Underway(fs, m0, m) && Keeps(fs, outcome, writes, m0)
    ensures Keeps(fs, outcome, writes, m)
  {
    hide Outcome;
  }

  /** flush_buffer entering Start: the outcome is the same. */
  lemma RestartKeeps(fs: Fs, m: Machine, outcome: Stream, writes: seq<int>)
    requires Sane(m) && Stopped(m) && m.message.None? && Keeps(fs, outcome, writes, m)
    requires m.byteCount > 0 && m.buf[m.victim] == ASCII_ZERO
    ensures m.thisHeader % 4 == 0
    ensures var next := Load(m.(state := Start), Rest(m));
            Sane(next) && Keeps(fs, outcome, writes, next)
  {
    hide Feed, Finish, ParseHeader;
    var next := Load(m.(state := Start), Rest(m));
    assert Rest(next) == Rest(m) && Rest(m)[0] == m.buf[m.victim];
    FeedStart(fs, Rest(m), m.thisHeader, m.links, m.events);
  }

  /** flush_buffer meeting junk: so does the reader. */
  lemma JunkKeeps(fs: Fs, m: Machine, outcome: Stream, writes: seq<int>)
    requires Sane(m) && Stopped(m) && m.message.None? && Keeps(fs, outcome, writes, m)
    requires m.byteCount > 0 && m.buf[m.victim] != ASCII_ZERO
    ensures var next := Load(Raise(m, Junk), m.buf);
            Sane(next) && Keeps(fs, outcome, writes, next)
  {
    hide Feed, Finish, ParseHeader;
    var next := Load(Raise(m, Junk), m.buf);
    assert Rest(m)[0] == m.buf[m.victim];
    FeedJunk(fs, Rest(m), m.thisHeader, m.links, m.events);
    FeedFailed(fs, m.events, Rest(next));
  }

  /** From m to n over the bytes s: n stands where the reference reader stands after s, unless a write failed or the stream
      alone does not say. */
  predicate Read(fs: Fs, m: Machine, s: seq<byte>, n: Machine)
    requires Sane(m) && Sane(n)
  {
    var after := Feed(fs, Abs(fs, m), s);
    && (after != Bad && !WriteFailed(n) ==> Abs(fs, n) == after)
    && (m.message.Some? ==> n.message == m.message)
    && (m.writes == [] && !WriteFailed(m) ==> n.writes == [] && !WriteFailed(n))
  }

  lemma ReadTrans(fs: Fs, a: Machine, s: seq<byte>, b: Machine, t: seq<byte>, c: Machine)
    requires Sane(a) && Sane(b) && Sane(c)
    requires Read(fs, a, s, b) && Read(fs, b, t, c)
    ensures Read(fs, a, s + t, c)
  {
    hide Feed, Finish, Abs;
    FeedConcat(fs, Abs(fs, a), s, t);
    FeedBad(fs, t);
  }

  lemma AbsShows(fs: Fs, m: Machine)
    requires Sane(m) && (m.message.None? ==> Resumable(m)) && Abs(fs, m) != Bad
    ensures Abs(fs, m).events == m.events && (Abs(fs, m).Failed? <==> m.message.Some?)
    ensures m.message.None? ==> Abs(fs, m).links == m.links && Abs(fs, m).pos == m.thisHeader
  {
    hide Feed, Finish, ParseHeader;
  }
}
