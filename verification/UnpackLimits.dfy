/**
 Two limits of the unpacker of init/initramfs.c: how long a chunk may be for write_buffer to return, and how far do_name
 reads when a name has no end.
 */
module UnpackLimits {
  import opened Wrappers
  import opened Cpio
  import opened UnpackSteps
  import opened UnpackProofs
  import opened UnpackRuns
  import opened UnpackAside
  import CpioArchive

  // Chunks.

  /** write_buffer's loop returns within k more actions. */
  ghost predicate Stops(fs: Fs, m: Machine, k: nat)
    decreases k
  {
    Enabled(m) && (Action(fs, m).stop || (k > 0 && Stops(fs, Action(fs, m).m, k - 1)))
  }

  ghost predicate Ends(fs: Fs, m: Machine) {
    exists k: nat :: Stops(fs, m, k)
  }

  lemma SaneEnabled(m: Machine)
    requires Sane(m)
    ensures Enabled(m)
  {
  }

  lemma {:induction false} SaneEnds(fs: Fs, m: Machine) returns (k: nat)
    requires Sane(m)
    ensures Stops(fs, m, k)
    decreases m.byteCount, Rank(m.state)
  {
    hide Action, Run, StateOk;
    SaneEnabled(m);
    RunStep(fs, m);
    var a := Action(fs, m);
    k := 0;
    if !a.stop {
      k := SaneEnds(fs, a.m);
      k := k + 1;
    }
  }

  /** An entry without a name whose skip comes to exactly 2^32 bytes. */
  const HUGE := Header(false, 0, 0, 0, 0, 0, 0, 0xffff_fffe, 0, 0, 0, 0, 0, 0)

  /** The header was collected, and 2^32 bytes are to be skipped. */
  predicate Stuck(m: Machine) {
    && ChunkOk(m) && m.byteCount >= U32 && m.state == SkipIt && m.nextState == GotHeader
    && |m.acc| == HEADER_SIZE && ParseHeader(m.acc) == Some(HUGE) && m.hdr == HUGE
    && m.thisHeader % 4 == 0 && m.nextHeader == m.thisHeader + U32
  }

  lemma HugeFiller(pos: nat)
    requires pos % 4 == 0
    ensures Filler(HUGE, pos) == U32
  {
  }

  /** do_skip eats nothing, since 2^32 is 0 as an unsigned int, and do_header finds the same header again. */
  lemma RoundAgain(fs: Fs, m: Machine)
    requires Stuck(m)
    ensures var a := Action(fs, m); !a.stop && Enabled(a.m) && Action(fs, a.m) == Act(m, false)
  {
    hide ParseHeader, RoundUp4;
    var got := m.(state := GotHeader);
    assert Unsigned(U32) == 0;
    assert Action(fs, m) == Act(got, false);
    HugeFiller(m.thisHeader);
    ParsedAside(got, HUGE);
    assert ParsedStep(got, HUGE) == m;
  }

  lemma {:induction false} NeverEnds(fs: Fs, m: Machine, k: nat)
    requires Stuck(m)
    ensures !Stops(fs, m, k)
    decreases k
  {
    hide Action, Stuck;
    RoundAgain(fs, m);
    if k >= 2 { NeverEnds(fs, m, k - 2); }
  }

  /** After some chunks, all of them short and without an error, the machine is this one. */
  ghost predicate Reachable(fs: Fs, m: Machine) {
    m.message.None? && exists chunks: seq<seq<byte>> :: Chunks(chunks) && FlushAll(fs, Fresh(fs, []), chunks) == m
  }

  lemma HugeAside()
    ensures SetAside(HUGE)
  {
  }

  /** Two bytes behind a header that was collected and is huge. */
  lemma TwoMore(fs: Fs, c: Machine, head: seq<byte>)
    requires Resumable(c) && c.message.None? && c.state == Collect && c.nextState == GotHeader && c.place == HeaderBuf
    requires |head| == HEADER_SIZE && ParseHeader(head) == Some(HUGE) && c.thisHeader == 1
    requires c.acc == head[..1] && c.remains == HEADER_SIZE - 1
    ensures var n := Flush(fs, c, head[1..] + [0, 0]);
            && n.message.None? && n.state == SkipIt && n.nextState == GotHeader && n.acc == head && n.hdr == HUGE
            && n.thisHeader == 112 && n.nextHeader == 112 + U32
  {
    hide Run, ParseHeader, SetAside;
    var chunk := head[1..] + [0, 0];
    LoadSane(fs, c, chunk);
    var m0 := Load(c, chunk);
    RunStep(fs, m0);
    var got := Action(fs, m0).m;
    assert chunk[0..HEADER_SIZE - 1] == head[1..];
    assert got.acc == head[..1] + head[1..] == head;
    assert SetAside(HUGE) by { HugeAside(); }
    AsideStep(fs, got, HUGE);
    var skip := Action(fs, got).m;
    RunStep(fs, got);
    assert Filler(HUGE, 110) == U32 + 2;
    RunStep(fs, skip);
    assert Action(fs, skip).stop;
  }

  lemma NoChunks(fs: Fs, m: Machine)
    requires Loadable(m)
    ensures Chunks([]) && FlushAll(fs, m, []) == m
  {
  }

  /** The stream: the first byte of the header, then the rest of it with the two bytes. */
  lemma HugeReached(fs: Fs) returns (m: Machine)
    ensures Reachable(fs, m)
    ensures forall chunk: seq<byte> | |chunk| >= U32 :: Stuck(Load(m, chunk))
  {
    hide Feed, Flush, FlushAll, ParseHeader, SetAside, Chunks, Concat, CpioArchive.EncodeHeader, Fresh, StateOk;
    var head := CpioArchive.EncodeHeader(HUGE);
    CpioArchive.HeaderRoundTrip(HUGE);
    HeadStarts(head);
    assert head[..1] == [ASCII_ZERO];
    var m0 := Fresh(fs, []);
    AtStart(m0);
    FirstByte(fs, m0);
    var c := Flush(fs, m0, head[..1]);
    TwoMore(fs, c, head);
    m := Flush(fs, c, head[1..] + [0, 0]);
    NoChunks(fs, m0);
    OneMore(fs, m0, [], head[..1]);
    OneMore(fs, m0, [] + [head[..1]], head[1..] + [0, 0]);
  }

  /** Every reachable machine can take a short chunk, and returns from it. */
  lemma ShortEnds(fs: Fs, m: Machine, chunk: seq<byte>)
    requires Reachable(fs, m) && |chunk| < U32
    ensures Ends(fs, Load(m, chunk))
  {
    hide FlushAll, Stops, Abs;
    LoadSane(fs, m, chunk);
    var k := SaneEnds(fs, Load(m, chunk));
  }

  /** write_buffer returns from every chunk of n bytes, whatever came before, exactly if n is less than 2^32. */
  lemma EndsExactly(fs: Fs, n: nat)
    ensures (forall m: Machine, chunk: seq<byte> | Reachable(fs, m) && |chunk| == n :: Ends(fs, Load(m, chunk))) <==> n < U32
  {
    hide Reachable, Stops, Stuck;
    if n < U32 {
      forall m: Machine, chunk: seq<byte> | Reachable(fs, m) && |chunk| == n ensures Ends(fs, Load(m, chunk)) {
        ShortEnds(fs, m, chunk);
      }
    } else {
      var m := HugeReached(fs);
      var chunk := CpioArchive.Zeros(n);
      forall k: nat ensures !Stops(fs, Load(m, chunk), k) { NeverEnds(fs, Load(m, chunk), k); }
    }
  }

  // Names.

  /** The bytes from `collected` to the end of what it points into: the chunk or name_buf. */
  function Region(m: Machine): seq<byte>
    requires m.victim <= |m.buf|
  {
    m.acc + (if m.place.InChunk? then m.buf[m.victim..] else if |m.acc| <= |m.nameBuf| then m.nameBuf[|m.acc|..] else [])
  }

  lemma {:induction false} CStringFits(s: seq<byte>, k: nat)
    requires k <= |s|
    ensures |CString(s)| < k <==> 0 in s[..k]
    decreases |s|
  {
    if k > 0 {
      if s[0] == 0 {
        assert s[..k][0] == 0;
      } else {
        assert s[..k] == [s[0]] + s[1..][..k - 1];
        CStringFits(s[1..], k - 1);
      }
    }
  }

  /**
   What do_name reads, its final NUL included, lies in the N_ALIGN(name_len) bytes that were gathered exactly if one of them
   is 0, and in the chunk or in name_buf exactly if one byte of that is 0 from there on.
   */
  lemma NameWithin(fs: Fs, m: Machine)
    requires Sane(m) && m.state == GotName
    ensures |m.acc| == NAlign(m.hdr.nameLen) <= |Region(m)|
    ensures |NameRead(fs, m)| < |m.acc| <==> 0 in m.acc
    ensures |NameRead(fs, m)| < |Region(m)| <==> 0 in Region(m)
    ensures m.place == NameBuf ==> |Region(m)| == Capacity(NameBuf)
  {
    hide CString, ParseHeader;
    var s := m.acc + Beyond(fs, m);
    assert s == Region(m) + fs.behind(m.events);
    assert s[..|m.acc|] == m.acc && s[..|Region(m)|] == Region(m);
    CStringFits(s, |m.acc|);
    CStringFits(s, |Region(m)|);
  }

  /** The copy that find_link keeps has as many bytes as name_buf: it holds the name exactly if one of so many bytes is 0. */
  lemma CopyFits(fs: Fs, m: Machine)
    requires Sane(m) && m.state == GotName
    ensures 0 in m.acc ==> |NameRead(fs, m)| < Capacity(NameBuf)
    ensures var s := m.acc + Beyond(fs, m);
            |s| >= Capacity(NameBuf) ==> (|NameRead(fs, m)| < Capacity(NameBuf) <==> 0 in s[..Capacity(NameBuf)])
  {
    hide CString, ParseHeader, Beyond;
    var s := m.acc + Beyond(fs, m);
    CStringFits(s, |m.acc|);
    assert s[..|m.acc|] == m.acc;
    if |s| >= Capacity(NameBuf) { CStringFits(s, Capacity(NameBuf)); }
  }

  // An input: a directory with two bytes of name and no NUL, and two bytes behind it.

  const UNENDED := Header(false, 1, 0x41ed, 0, 0, 1, 0, 0, 0, 0, 0, 0, 2, 0)

  lemma UnendedIs(pos: nat)
    requires pos % 4 == 0
    ensures !SetAside(UNENDED) && NAlign(UNENDED.nameLen) == 2 && UNENDED.Type() == S_IFDIR && UNENDED.bodyLen == 0
    ensures RoundUp4(pos + HEADER_SIZE + 2) == pos + HEADER_SIZE + 2
  {
  }

  function MadeDir(name: seq<byte>): seq<Event> {
    [CleanPath(name, 0x41ed), Dir(name, 0x41ed, 0, 0, 0)]
  }

  /** The directory is made with the name that is read, whatever that is; the junk behind it then ends the unpacking. */
  lemma DirMade(fs: Fs, m: Machine)
    requires Sane(m) && m.state == GotName && m.message.None? && m.hdr == UNENDED && m.writes == [] && m.events == []
    requires m.thisHeader % 4 == 0 && m.nextHeader == m.thisHeader && Rest(m) == [99, 0] && NameRead(fs, m) != TRAILER
    ensures FlushLoop(fs, Run(fs, m)).events == MadeDir(NameRead(fs, m))
  {
    hide Feed, Finish, Run, FlushLoop, NameRead, ParseHeader, RoundUp4, NAlign;
    var name := NameRead(fs, m);
    RunStep(fs, m);
    var n := Action(fs, m).m;
    assert UNENDED.Type() == S_IFDIR;
    assert n.events == MadeDir(name) by { assert [] + [CleanPath(name, 0x41ed)] == [CleanPath(name, 0x41ed)]; }
    assert Rest(n) == Rest(m) && Abs(fs, n) == Stream(Between, n.thisHeader, n.links, n.events);
    FeedJunk(fs, Rest(n), n.thisHeader, n.links, n.events);
    RunFollows(fs, n);
    var outcome := Failed(n.events);
    UnderwayKeeps(fs, n, Run(fs, n), outcome, []);
    LoopKeeps(fs, Run(fs, n), outcome, []);
    var end := FlushLoop(fs, Run(fs, n));
    OutcomeIs(fs, end);
    AbsShows(fs, end);
  }

  /** The header is read in place, and its name is read or begun. */
  lemma UnendedHeader(fs: Fs, m: Machine, head: seq<byte>, more: seq<byte>) returns (n: Machine)
    requires AtEntry(m) && |head| == HEADER_SIZE && ParseHeader(head) == Some(UNENDED) && |head + more| < U32
    ensures Sane(n) && n.hdr == UNENDED && n.buf == head + more && n.message.None? && n.writes == []
    ensures n.events == m.events && n.nameBuf == m.nameBuf && n.nextHeader == m.thisHeader + HEADER_SIZE + 2
    ensures Flush(fs, m, head + more) == FlushLoop(fs, Run(fs, n))
    ensures if |more| >= 2 then n.state == GotName && n.place == InChunk && n.acc == more[..2] && Rest(n) == more[2..]
                                && n.thisHeader == n.nextHeader
            else n.state == Collect && n.nextState == GotName && n.acc == [] && n.remains == 2 && n.victim == HEADER_SIZE
                 && n.thisHeader == m.thisHeader + HEADER_SIZE
  {
    hide Run, FlushLoop, Flush, ParseHeader, SetAside, RoundUp4, NAlign;
    var chunk := head + more;
    HeadStarts(head);
    FromStart(fs, m, chunk);
    UnendedIs(m.thisHeader);
    var s := Load(m.(state := Start), chunk);
    RunStep(fs, s);
    var got := Action(fs, s).m;
    assert got.acc == head && got.buf[got.victim..] == more;
    RunStep(fs, got);
    n := Action(fs, got).m;
  }

  lemma AbcIs(s: seq<byte>)
    requires |s| >= 4 && s[..4] == [97, 98, 99, 0]
    ensures CString(s) == [97, 98, 99]
  {
    var t := s[..4];
    assert s == t + s[4..] && t[3] == 0;
    CStringWithin(t, s[4..]);
    assert CString([97, 98, 99, 0]) == [97] + CString([98, 99, 0]) by { assert [97, 98, 99, 0][1..] == [98, 99, 0]; }
    assert CString([98, 99, 0]) == [98] + CString([99, 0]) by { assert [98, 99, 0][1..] == [99, 0]; }
    assert CString([99, 0]) == [99] + CString([0]) by { assert [99, 0][1..] == [0]; }
  }

  /** In one chunk: the name runs on into the bytes behind it. */
  lemma NameInPlace(fs: Fs, m: Machine, head: seq<byte>)
    requires AtEntry(m) && m.events == [] && |head| == HEADER_SIZE && ParseHeader(head) == Some(UNENDED)
    ensures Flush(fs, m, head + [97, 98, 99, 0]).events == MadeDir([97, 98, 99])
  {
    hide Run, FlushLoop, Flush, ParseHeader, SetAside, RoundUp4, NAlign;
    var more := [97, 98, 99, 0];
    var n := UnendedHeader(fs, m, head, more);
    assert more[..2] == [97, 98] && more[2..] == [99, 0];
    assert NameRead(fs, n) == [97, 98, 99] by { AbcIs(n.acc + Beyond(fs, n)); }
    DirMade(fs, n);
  }

  lemma AbIs(s: seq<byte>)
    requires |s| >= 3 && s[..3] == [97, 98, 0]
    ensures CString(s) == [97, 98]
  {
    var t := s[..3];
    assert s == t + s[3..] && t[2] == 0;
    CStringWithin(t, s[3..]);
    assert CString([97, 98, 0]) == [97] + CString([98, 0]) by { assert [97, 98, 0][1..] == [98, 0]; }
    assert CString([98, 0]) == [98] + CString([0]) by { assert [98, 0][1..] == [0]; }
  }

  /** A name of two bytes is to be collected, and a NUL lies behind them in name_buf. */
  predicate NameBegun(w: Machine) {
    && Resumable(w) && w.message.None? && w.state == Collect && w.nextState == GotName && w.hdr == UNENDED
    && w.acc == [] && w.remains == 2 && w.writes == [] && w.events == [] && w.nameBuf[2] == 0
    && w.thisHeader + 2 == w.nextHeader && w.nextHeader % 4 == 0
  }

  lemma BeginName(fs: Fs, m: Machine, head: seq<byte>)
    requires AtEntry(m) && m.events == [] && |head| == HEADER_SIZE && ParseHeader(head) == Some(UNENDED) && m.nameBuf[2] == 0
    ensures NameBegun(Flush(fs, m, head))
  {
    hide Run, Flush, ParseHeader, SetAside, RoundUp4, NAlign;
    assert head + [] == head;
    var c := UnendedHeader(fs, m, head, []);
    RunStep(fs, c);
    assert Action(fs, c) == Act(c, true) by {
      assert c.acc + c.buf[c.victim..c.victim] == c.acc;
      assert Over(c.nameBuf, []) == c.nameBuf;
    }
  }

  lemma OverKeeps(buf: seq<byte>, s: seq<byte>, i: nat)
    requires |s| <= i < |buf|
    ensures Over(buf, s)[i] == buf[i]
  {
  }

  /** The two bytes of a name are collected in one action. */
  lemma TwoCollected(m: Machine)
    requires Sane(m) && m.state == Collect && m.nextState == GotName && m.acc == [] && m.remains == 2 && m.byteCount >= 2
    ensures var got := CollectStep(m);
            && !got.stop && got.m.acc == m.buf[m.victim..m.victim + 2] && got.m.place == NameBuf
            && got.m == m.(acc := got.m.acc, nameBuf := Over(m.nameBuf, got.m.acc), remains := 0, state := GotName,
                           victim := m.victim + 2, thisHeader := m.thisHeader + 2, byteCount := m.byteCount - 2)
  {
    hide ParseHeader, SetAside, RoundUp4, NAlign, Csum, Over;
    assert [] + m.buf[m.victim..m.victim + 2] == m.buf[m.victim..m.victim + 2];
  }

  lemma CollectsName(fs: Fs, w: Machine, chunk: seq<byte>) returns (got: Machine)
    requires NameBegun(w) && |chunk| == 4
    ensures Sane(got) && got.state == GotName && got.message.None? && got.hdr == UNENDED && got.writes == [] && got.events == []
    ensures got.place == NameBuf && got.acc == chunk[..2] && got.nameBuf[2] == 0 && Rest(got) == chunk[2..]
    ensures got.thisHeader == got.nextHeader && got.thisHeader % 4 == 0
    ensures Flush(fs, w, chunk) == FlushLoop(fs, Run(fs, got))
  {
    hide Run, FlushLoop, CollectStep, StateOk, Halted, Over;
    LoadSane(fs, w, chunk);
    var m0 := Load(w, chunk);
    SaneEnabled(m0);
    RunStep(fs, m0);
    TwoCollected(m0);
    got := CollectStep(m0).m;
    OverKeeps(w.nameBuf, got.acc, 2);
  }

  lemma EndName(fs: Fs, w: Machine)
    requires NameBegun(w)
    ensures Flush(fs, w, [97, 98, 99, 0]).events == MadeDir([97, 98])
  {
    hide Run, Flush, FlushLoop, ParseHeader, StateOk, CString;
    var chunk := [97, 98, 99, 0];
    assert chunk[..2] == [97, 98] && chunk[2..] == [99, 0];
    var got := CollectsName(fs, w, chunk);
    AbIs(got.acc + Beyond(fs, got));
    DirMade(fs, got);
  }

  /** With the header in a chunk of its own: the name runs on into what name_buf still holds. */
  lemma NameCollected(fs: Fs, m: Machine, head: seq<byte>)
    requires AtEntry(m) && m.events == [] && |head| == HEADER_SIZE && ParseHeader(head) == Some(UNENDED) && m.nameBuf[2] == 0
    ensures Flush(fs, Flush(fs, m, head), [97, 98, 99, 0]).events == MadeDir([97, 98])
  {
    hide Flush, ParseHeader;
    BeginName(fs, m, head);
    EndName(fs, Flush(fs, m, head));
  }

  /** A name without an end makes the outcome depend on the cut, and on what memory holds. */
  lemma UnendedExample(fs: Fs) returns (head: seq<byte>)
    requires fs.garbage(2) == 0
    ensures |head| == HEADER_SIZE && ParseHeader(head) == Some(UNENDED) && !SetAside(UNENDED)
    ensures Unpacked(fs, [head + [97, 98, 99, 0]]) == MadeDir([97, 98, 99])
    ensures Unpacked(fs, [head, [97, 98, 99, 0]]) == MadeDir([97, 98])
  {
    hide Flush, FlushAll, ParseHeader, SetAside, Chunks, Concat, CpioArchive.EncodeHeader, Fresh;
    head := CpioArchive.EncodeHeader(UNENDED);
    CpioArchive.HeaderRoundTrip(UNENDED);
    UnendedIs(0);
    var m := Fresh(fs, []);
    AtStart(m);
    NameInPlace(fs, m, head);
    NameCollected(fs, m, head);
    NoChunks(fs, m);
    OneMore(fs, m, [], head + [97, 98, 99, 0]);
    OneMore(fs, m, [], head);
    OneMore(fs, m, [] + [head], [97, 98, 99, 0]);
    assert [] + [head + [97, 98, 99, 0]] == [head + [97, 98, 99, 0]];
    assert [] + [head] + [[97, 98, 99, 0]] == [head, [97, 98, 99, 0]];
  }
}
