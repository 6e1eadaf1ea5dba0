/**
 Entries that do_header of init/initramfs.c sets aside. It does so without setting next_state, which is then whatever the
 reading of the header left there. So what becomes of the entries behind depends on how the stream was cut into chunks.
 */
module UnpackAside {
  import opened Wrappers
  import opened Cpio
  import opened UnpackSteps
  import opened UnpackProofs
  import opened UnpackRuns
  import CpioArchive
  import CpioMeaning

  /** What is skipped behind the header of an entry that is set aside, the header ending at `pos`. */
  function Filler(h: Header, pos: nat): nat {
    RoundUp4(pos + NAlign(h.nameLen) + h.bodyLen) - pos
  }

  lemma ParsedAside(m: Machine, h: Header)
    requires ChunkOk(m) && SetAside(h)
    ensures ParsedStep(m, h) == m.(hdr := h, nextHeader := m.thisHeader + Filler(h, m.thisHeader), state := SkipIt)
  {
    hide NAlign;
  }

  lemma AsideStep(fs: Fs, m: Machine, h: Header)
    requires Sane(m) && m.state == GotHeader && ParseHeader(m.acc) == Some(h) && SetAside(h)
    ensures Action(fs, m) == Act(m.(hdr := h, nextHeader := m.thisHeader + Filler(h, m.thisHeader), state := SkipIt), false)
  {
    assert ChunkOk(m) && |m.acc| == HEADER_SIZE;
    ParsedAside(m, h);
    hide ParsedStep, ParseHeader, StateOk, SetAside, RoundUp4, NAlign;
  }

  /** A header that was collected is read again and again, to the end of the chunk. */
  lemma {:induction false} ReadsAgain(fs: Fs, m: Machine, h: Header)
    requires Sane(m) && m.state == GotHeader && m.nextState == GotHeader && m.place == HeaderBuf
    requires ParseHeader(m.acc) == Some(h) && SetAside(h)
    ensures var n := Run(fs, m); n.byteCount == 0 && n.events == m.events && n.message == m.message
    decreases m.byteCount
  {
    hide Run, ParseHeader, RoundUp4;
    AsideStep(fs, m, h);
    var skip := Action(fs, m).m;
    RunStep(fs, m);
    RunStep(fs, skip);
    assert Filler(h, m.thisHeader) > 0;
    var next := Action(fs, skip);
    if !next.stop { ReadsAgain(fs, next.m, h); }
  }

  /** The machine stands before an entry, and no error was raised. */
  predicate AtEntry(m: Machine) {
    && Resumable(m) && m.message.None? && m.writes == [] && m.thisHeader % 4 == 0
    && (m.state == Start || m.state == Reset || (m.state == SkipIt && m.nextState == Reset && m.thisHeader == m.nextHeader))
  }

  lemma StartAgain(fs: Fs, m: Machine, chunk: seq<byte>)
    requires Sane(m) && m.state == Reset && m.message.None? && m.thisHeader % 4 == 0
    requires m.buf == chunk && m.victim == 0 && m.byteCount == |chunk| > 0 && chunk[0] == ASCII_ZERO
    ensures Sane(m.(state := Start))
    ensures FlushLoop(fs, Run(fs, m)) == FlushLoop(fs, Run(fs, m.(state := Start)))
  {
    hide Run;
    RunStep(fs, m);
    assert Action(fs, m) == Act(m, true);
    assert Rest(m) == chunk;
    assert Again(m) == m.(state := Start);
    AgainEats(fs, m);
  }

  /** A chunk that begins with a header is read from Start. */
  lemma FromStart(fs: Fs, m: Machine, chunk: seq<byte>)
    requires AtEntry(m) && 0 < |chunk| < U32 && chunk[0] == ASCII_ZERO
    ensures var s := Load(m.(state := Start), chunk);
            Sane(s) && Flush(fs, m, chunk) == FlushLoop(fs, Run(fs, s))
  {
    hide Run, FlushLoop;
    var m0 := Load(m, chunk);
    if m.state == SkipIt {
      RunStep(fs, m0);
      assert Action(fs, m0) == Act(m0.(state := Reset), false);
      StartAgain(fs, m0.(state := Reset), chunk);
      assert m0.(state := Reset).(state := Start) == Load(m.(state := Start), chunk);
    } else if m.state == Reset {
      StartAgain(fs, m0, chunk);
      assert m0.(state := Start) == Load(m.(state := Start), chunk);
    }
  }

  /** A header, bytes enough to skip, and the rest of the stream. */
  ghost predicate Aside(head: seq<byte>, filler: seq<byte>, h: Header, pos: nat) {
    && |head| == HEADER_SIZE && ParseHeader(head) == Some(h) && SetAside(h) && pos % 4 == 0
    && |filler| == Filler(h, pos + HEADER_SIZE)
  }

  lemma HeadStarts(head: seq<byte>)
    requires |head| == HEADER_SIZE && ParseHeader(head).Some?
    ensures head[0] == ASCII_ZERO
  {
    hide ParsedFields;
    assert head[0] == head[..6][0];
  }

  // The header in one piece.

  /** Read in place, the header is skipped with its filler, and next_state is what it was before. */
  lemma SkippedOver(fs: Fs, s: Machine, head: seq<byte>, filler: seq<byte>, rest: seq<byte>, h: Header) returns (n: Machine)
    requires Sane(s) && s.state == Start && s.victim == 0 && s.buf == head + filler + rest
    requires Aside(head, filler, h, s.thisHeader)
    ensures Sane(n) && Run(fs, s) == Run(fs, n) && Rest(n) == rest && n.state == s.nextState
    ensures n.events == s.events && n.links == s.links && n.message == s.message && n.writes == s.writes
    ensures n.thisHeader == s.thisHeader + HEADER_SIZE + |filler| && n.thisHeader % 4 == 0
  {
    hide Run, ParseHeader, SetAside;
    var got := Action(fs, s).m;
    RunStep(fs, s);
    assert got.acc == head;
    AsideStep(fs, got, h);
    RunStep(fs, got);
    var skip := Action(fs, got).m;
    RunStep(fs, skip);
    n := Action(fs, skip).m;
  }

  /** What the rest means, wherever the machine came from. */
  lemma GoesOn(fs: Fs, n: Machine)
    requires Sane(n) && (n.state == Start || n.state == Reset) && n.message.None? && n.writes == [] && n.thisHeader % 4 == 0
    requires n.byteCount > 0 && Rest(n)[0] == ASCII_ZERO
    requires Feed(fs, Stream(Between, n.thisHeader, n.links, n.events), Rest(n)) != Bad
    ensures var end := FlushLoop(fs, Run(fs, n));
            end.events == Feed(fs, Stream(Between, n.thisHeader, n.links, n.events), Rest(n)).events
  {
    hide Feed, Finish, Run, FlushLoop;
    var outcome := Feed(fs, Stream(Between, n.thisHeader, n.links, n.events), Rest(n));
    FeedStart(fs, Rest(n), n.thisHeader, n.links, n.events);
    assert Keeps(fs, outcome, [], n);
    RunFollows(fs, n);
    UnderwayKeeps(fs, n, Run(fs, n), outcome, []);
    LoopKeeps(fs, Run(fs, n), outcome, []);
    var end := FlushLoop(fs, Run(fs, n));
    OutcomeIs(fs, end);
    AbsShows(fs, end);
  }

  /** In one chunk: the entries behind are unpacked. */
  lemma InOnePiece(fs: Fs, m: Machine, head: seq<byte>, filler: seq<byte>, rest: seq<byte>, h: Header)
    requires AtEntry(m) && Aside(head, filler, h, m.thisHeader) && |head + filler + rest| < U32
    requires rest != [] && rest[0] == ASCII_ZERO
    requires Feed(fs, Stream(Between, m.thisHeader + HEADER_SIZE + |filler|, m.links, m.events), rest) != Bad
    ensures Flush(fs, m, head + filler + rest).events
         == Feed(fs, Stream(Between, m.thisHeader + HEADER_SIZE + |filler|, m.links, m.events), rest).events
  {
    hide Feed, Run, Flush, FlushLoop, ParseHeader, SetAside, Filler;
    HeadStarts(head);
    var chunk := head + filler + rest;
    FromStart(fs, m, chunk);
    var s := Load(m.(state := Start), chunk);
    var n := SkippedOver(fs, s, head, filler, rest, h);
    assert |Rest(n)| == n.byteCount;
    GoesOn(fs, n);
  }

  // Its first byte apart.

  /** The first byte waits in the header buffer, and next_state says that a header is being collected. */
  lemma FirstByte(fs: Fs, m: Machine)
    requires AtEntry(m)
    ensures var c := Flush(fs, m, [ASCII_ZERO]);
            && Resumable(c) && c.message.None? && c.state == Collect && c.nextState == GotHeader && c.place == HeaderBuf
            && c.acc == [ASCII_ZERO] && c.remains == HEADER_SIZE - 1 && c.events == m.events
            && c.thisHeader == m.thisHeader + 1
  {
    hide Run, Flush;
    FromStart(fs, m, [ASCII_ZERO]);
    var s := Load(m.(state := Start), [ASCII_ZERO]);
    RunStep(fs, s);
    var c := Action(fs, s).m;
    RunStep(fs, c);
    assert s.buf[0..1] == [ASCII_ZERO] && [] + [ASCII_ZERO] == [ASCII_ZERO];
    assert Action(fs, c).stop;
  }

  /** The rest of the header completes it there; then it is all that is read. */
  lemma OtherBytes(fs: Fs, c: Machine, head: seq<byte>, more: seq<byte>, h: Header)
    requires Resumable(c) && c.message.None? && c.state == Collect && c.nextState == GotHeader && c.place == HeaderBuf
    requires |head| == HEADER_SIZE && ParseHeader(head) == Some(h) && SetAside(h)
    requires c.acc == head[..1] && c.remains == HEADER_SIZE - 1 && |head[1..] + more| < U32
    ensures var n := Flush(fs, c, head[1..] + more); n.message.None? && n.events == c.events
  {
    hide Run, ParseHeader, SetAside;
    var chunk := head[1..] + more;
    LoadSane(fs, c, chunk);
    var m0 := Load(c, chunk);
    RunStep(fs, m0);
    var got := Action(fs, m0).m;
    assert chunk[0..HEADER_SIZE - 1] == head[1..];
    assert got.acc == head[..1] + head[1..] == head;
    ReadsAgain(fs, got, h);
  }

  /** With its first byte apart: nothing behind is unpacked. */
  lemma InTwoPieces(fs: Fs, m: Machine, head: seq<byte>, more: seq<byte>, h: Header)
    requires AtEntry(m) && |head| == HEADER_SIZE && ParseHeader(head) == Some(h) && SetAside(h) && |head + more| < U32
    ensures Loadable(Flush(fs, m, head[..1]))
    ensures Flush(fs, Flush(fs, m, head[..1]), head[1..] + more).events == m.events
  {
    hide Flush, ParseHeader, SetAside;
    HeadStarts(head);
    assert head[..1] == [ASCII_ZERO];
    FirstByte(fs, m);
    OtherBytes(fs, Flush(fs, m, head[..1]), head, more, h);
  }

  // Whole streams.

  /** Where the reader stands after chunks that end between two entries, or before the first one. */
  function Reached(fs: Fs, before: seq<seq<byte>>): Stream {
    if before == [] then Stream(Between, 0, map[], []) else Feed(fs, Initial, Concat(before))
  }

  /** The position is one at which an entry may begin. */
  predicate Boundary(r: Stream) {
    r.Stream? && r.phase == Between && r.pos % 4 == 0
  }

  /** The machine stands there too. */
  predicate StandsAt(m: Machine, r: Stream) {
    Boundary(r) && m.thisHeader == r.pos && m.links == r.links && m.events == r.events && AtEntry(m)
  }

  lemma BetweenMeans(fs: Fs, m: Machine, r: Stream)
    requires Resumable(m) && m.message.None? && m.writes == [] && Boundary(r)
    requires m.thisHeader == r.pos && m.links == r.links && m.events == r.events && Abs(fs, m) == r
    ensures StandsAt(m, r)
  {
    hide Feed, Finish;
  }

  lemma AtStart(m: Machine)
    requires Resumable(m) && m.message.None? && m.writes == []
    requires m.state == Start && m.thisHeader == 0 && m.links == map[] && m.events == []
    ensures StandsAt(m, Stream(Between, 0, map[], []))
  {
  }

  lemma ReachedBoundary(fs: Fs, before: seq<seq<byte>>)
    requires Chunks(before) && Boundary(Reached(fs, before))
    ensures StandsAt(FlushAll(fs, Fresh(fs, []), before), Reached(fs, before))
  {
    hide Feed, Finish, Flush, StandsAt, Abs, StateOk, Fresh;
    if before == [] {
      AtStart(Fresh(fs, []));
    } else {
      AnyCut(fs, before, []);
      hide FlushAll;
      BetweenMeans(fs, FlushAll(fs, Fresh(fs, []), before), Reached(fs, before));
    }
  }

  lemma OneMore(fs: Fs, m: Machine, before: seq<seq<byte>>, chunk: seq<byte>)
    requires Loadable(m) && Chunks(before) && |chunk| < U32
    ensures Chunks(before + [chunk]) && Concat(before + [chunk]) == Concat(before) + chunk
    ensures FlushAll(fs, m, before + [chunk]) == Flush(fs, FlushAll(fs, m, before), chunk)
  {
    hide Flush;
    assert (before + [chunk])[..|before|] == before;
  }

  /** What the reader would make of the rest behind the header and its filler. */
  function Behind(fs: Fs, r: Stream, filler: seq<byte>, rest: seq<byte>): Stream
    requires Boundary(r)
  {
    Feed(fs, Stream(Between, r.pos + HEADER_SIZE + |filler|, r.links, r.events), rest)
  }

  /** A stream up to an entry boundary, and behind it a header with its filler and a rest that means one thing. */
  ghost predicate Interrupted(fs: Fs, before: seq<seq<byte>>, head: seq<byte>, filler: seq<byte>, rest: seq<byte>, h: Header) {
    var r := Reached(fs, before);
    && Chunks(before) && Boundary(r) && |head + filler + rest| < U32
    && |head| == HEADER_SIZE && ParseHeader(head) == Some(h) && |filler| == Filler(h, r.pos + HEADER_SIZE)
    && rest != [] && rest[0] == ASCII_ZERO && Behind(fs, r, filler, rest) != Bad
  }

  function Cut1(before: seq<seq<byte>>, head: seq<byte>, filler: seq<byte>, rest: seq<byte>): seq<seq<byte>> {
    before + [head + filler + rest]
  }

  function Cut2(before: seq<seq<byte>>, head: seq<byte>, filler: seq<byte>, rest: seq<byte>): seq<seq<byte>>
    requires head != []
  {
    before + [head[..1]] + [head[1..] + (filler + rest)]
  }

  lemma WithCut1(fs: Fs, before: seq<seq<byte>>, head: seq<byte>, filler: seq<byte>, rest: seq<byte>, h: Header)
    requires Interrupted(fs, before, head, filler, rest, h) && SetAside(h)
    ensures var a := Cut1(before, head, filler, rest);
            && Chunks(a) && Concat(a) == Concat(before) + (head + filler + rest)
            && Unpacked(fs, a) == EventsOf(Behind(fs, Reached(fs, before), filler, rest))
  {
    hide Feed, Flush, FlushAll, Concat, Filler, ParseHeader, SetAside, AtEntry, Chunks, Fresh, Reached;
    ReachedBoundary(fs, before);
    OneMore(fs, Fresh(fs, []), before, head + filler + rest);
    InOnePiece(fs, FlushAll(fs, Fresh(fs, []), before), head, filler, rest, h);
  }

  lemma WithCut2(fs: Fs, before: seq<seq<byte>>, head: seq<byte>, filler: seq<byte>, rest: seq<byte>, h: Header)
    requires Interrupted(fs, before, head, filler, rest, h) && SetAside(h)
    ensures var b := Cut2(before, head, filler, rest);
            && Chunks(b) && Concat(b) == Concat(before) + (head + filler + rest)
            && Unpacked(fs, b) == EventsOf(Reached(fs, before))
  {
    hide Feed, Flush, FlushAll, Concat, Filler, ParseHeader, SetAside, AtEntry, Chunks, Fresh, Reached, Behind;
    ReachedBoundary(fs, before);
    var more := filler + rest;
    assert head + more == head + filler + rest;
    OneMore(fs, Fresh(fs, []), before, head[..1]);
    OneMore(fs, Fresh(fs, []), before + [head[..1]], head[1..] + more);
    InTwoPieces(fs, FlushAll(fs, Fresh(fs, []), before), head, more, h);
    assert Concat(before) + head[..1] + (head[1..] + more) == Concat(before) + (head + filler + rest);
  }

  /** However the stream is cut, the same is unpacked. */
  ghost predicate OneMeaning(fs: Fs, s: seq<byte>) {
    forall a: seq<seq<byte>>, b: seq<seq<byte>> | Chunks(a) && Chunks(b) && Concat(a) == s && Concat(b) == s ::
      Unpacked(fs, a) == Unpacked(fs, b)
  }

  /** A stream that sets no entry aside and gives every name an end, with whatever errors, means one thing. */
  lemma MeansOne(fs: Fs, s: seq<byte>)
    requires Feed(fs, Initial, s) != Bad
    ensures OneMeaning(fs, s)
  {
    hide Feed, Unpacked, Concat, Chunks;
    forall a: seq<seq<byte>>, b: seq<seq<byte>> | Chunks(a) && Chunks(b) && Concat(a) == s && Concat(b) == s
      ensures Unpacked(fs, a) == Unpacked(fs, b)
    {
      UnpackedAnyCut(fs, a);
      UnpackedAnyCut(fs, b);
    }
  }

  /**
   Any beginning, any header, anything for its filler and any rest that asks for something, in which nothing is set aside and
   every name has an end: the same is unpacked however the stream is cut, exactly if this entry is not set aside either. If
   it is, there is a cut with which the rest is unpacked and one with which none of it is.
   */
  lemma CutsAgree(fs: Fs, before: seq<seq<byte>>, head: seq<byte>, filler: seq<byte>, rest: seq<byte>, h: Header)
    requires Interrupted(fs, before, head, filler, rest, h)
    requires EventsOf(Behind(fs, Reached(fs, before), filler, rest)) != EventsOf(Reached(fs, before))
    requires CpioMeaning.TakenIn(h) ==> Feed(fs, Initial, Concat(before) + (head + filler + rest)) != Bad
    ensures OneMeaning(fs, Concat(before) + (head + filler + rest)) <==> CpioMeaning.TakenIn(h)
  {
    assert SetAside(h) <==> !CpioMeaning.TakenIn(h);
    hide Feed, Unpacked, Concat, Filler, ParseHeader, SetAside, Chunks, Reached, EventsOf, CpioMeaning.TakenIn;
    if SetAside(h) {
      WithCut1(fs, before, head, filler, rest, h);
      WithCut2(fs, before, head, filler, rest, h);
    } else {
      MeansOne(fs, Concat(before) + (head + filler + rest));
    }
  }

  // An input: a header without a name, the two bytes of its filler, and a directory.

  const NAMELESS := Header(false, 0, 0, 0, 0, 0, 0, 0, 0, 0, 0, 0, 0, 0)
  const DIRECTORY := CpioArchive.Entry(Header(false, 1, 0x41ed, 0, 0, 1, 0, 0, 0, 0, 0, 0, 2, 0), [97], [])

  lemma DirectoryRead(fs: Fs)
    ensures CpioArchive.WellFormed(DIRECTORY)
    ensures var s := CpioArchive.Encode(DIRECTORY); |s| == HEADER_SIZE + 2 && s[0] == ASCII_ZERO
    ensures Feed(fs, Stream(Between, 112, map[], []), CpioArchive.Encode(DIRECTORY))
         == Stream(Between, 224, map[], [CleanPath([97], 0x41ed), Dir([97], 0x41ed, 0, 0, 0)])
  {
    hide Feed, CpioArchive.EncodeHeader, CpioArchive.EncodeName;
    var e := DIRECTORY;
    CpioArchive.ReadEntry(fs, e, 112, CpioArchive.World(map[], []));
    CpioArchive.EntryStartsWithZero(e);
    FeedStart(fs, CpioArchive.Encode(e), 112, map[], []);
    assert e.name != TRAILER;
  }

  /** In one chunk the directory is made, with the first byte apart nothing is. */
  lemma AsideExample(fs: Fs) returns (s: seq<byte>)
    ensures |s| == 224
    ensures Unpacked(fs, [s]) == [CleanPath([97], 0x41ed), Dir([97], 0x41ed, 0, 0, 0)]
    ensures Unpacked(fs, [s[..1], s[1..]]) == []
  {
    hide Feed, Unpacked, ParseHeader, Concat, CpioArchive.Encode, CpioArchive.EncodeHeader;
    var head, filler, rest := CpioArchive.EncodeHeader(NAMELESS), [0, 0], CpioArchive.Encode(DIRECTORY);
    s := head + filler + rest;
    CpioArchive.HeaderRoundTrip(NAMELESS);
    DirectoryRead(fs);
    WithCut1(fs, [], head, filler, rest, NAMELESS);
    WithCut2(fs, [], head, filler, rest, NAMELESS);
    assert Cut1([], head, filler, rest) == [s];
    assert s[..1] == head[..1] && s[1..] == head[1..] + (filler + rest);
    assert Cut2([], head, filler, rest) == [s[..1], s[1..]];
  }
}
