/**
 Whole runs of the unpacker of init/initramfs.c: write_buffer, flush_buffer and a decompressor that hands over one chunk
 after the other, as functions on the machine. Every run ends where the reference reader does, as long as the stream alone
 says where that is.
 */
module UnpackRuns {
  import opened Wrappers
  import opened Cpio
  import opened UnpackSteps
  import opened UnpackProofs

  /** write_buffer's loop: actions until one stops. */
  function Run(fs: Fs, m: Machine): (n: Machine)
    requires Sane(m)
    ensures Sane(n) && Stopped(n)
    decreases m.byteCount, Rank(m.state)
  {
    ActionFollows(fs, m);
    var a := Action(fs, m);
    if a.stop then a.m else Run(fs, a.m)
  }

  /** The first action of a run. */
  lemma RunStep(fs: Fs, m: Machine)
    requires Sane(m)
    ensures var a := Action(fs, m);
            && Sane(a.m) && Run(fs, m) == (if a.stop then a.m else Run(fs, a.m))
            && (!a.stop ==> Progress(m, a.m))
  {
    ActionFollows(fs, m);
  }

  lemma UnderwaySane(fs: Fs, m0: Machine, m: Machine)
    requires Underway(fs, m0, m)
    ensures Sane(m0) && Sane(m) && Enabled(m)
  {
  }

  lemma {:induction false} RunUnderway(fs: Fs, m0: Machine, m: Machine)
    requires Underway(fs, m0, m)
    ensures Underway(fs, m0, Run(fs, m))
    decreases m.byteCount, Rank(m.state)
  {
    hide Underway, Sane;
    UnderwaySane(fs, m0, m);
    StepUnderway(fs, m0, m);
    var a := Action(fs, m);
    hide Action;
    if !a.stop { RunUnderway(fs, m0, a.m); }
  }

  lemma RunFollows(fs: Fs, m: Machine)
    requires Sane(m)
    ensures Underway(fs, m, Run(fs, m)) && Run(fs, m).buf == m.buf
  {
    BeginUnderway(fs, m);
    RunUnderway(fs, m, m);
  }

  /** What is left of a chunk is loaded again, with an error raised or a new header begun. */
  function Again(m: Machine): (n: Machine)
    requires Sane(m) && Stopped(m) && m.message.None? && m.byteCount > 0
    ensures Sane(n)
  {
    if m.buf[m.victim] == ASCII_ZERO then Load(m.(state := Start), Rest(m)) else Load(Raise(m, Junk), m.buf)
  }

  lemma AgainEats(fs: Fs, m: Machine)
    requires Sane(m) && Stopped(m) && m.message.None? && m.byteCount > 0
    ensures var n := Run(fs, Again(m)); n.message.Some? || n.byteCount < m.byteCount
  {
    RunFollows(fs, Again(m));
  }

  /** flush_buffer's loop, from the first return of write_buffer on. */
  function FlushLoop(fs: Fs, m: Machine): (n: Machine)
    requires Sane(m) && Stopped(m)
    ensures Sane(n) && Stopped(n) && (n.message.None? ==> n.byteCount == 0)
    decreases m.message.None?, m.byteCount
  {
    if m.message.Some? || m.byteCount == 0 then m
    else
      AgainEats(fs, m);
      FlushLoop(fs, Run(fs, Again(m)))
  }

  predicate Loadable(m: Machine) {
    Sane(m) && (m.message.None? ==> Resumable(m))
  }

  /** flush_buffer on one chunk. */
  function Flush(fs: Fs, m: Machine, chunk: seq<byte>): (n: Machine)
    requires Loadable(m) && |chunk| < U32
    ensures Loadable(n)
  {
    if m.message.Some? then m
    else
      LoadSane(fs, m, chunk);
      FlushLoop(fs, Run(fs, Load(m, chunk)))
  }

  predicate Chunks(chunks: seq<seq<byte>>) {
    forall i | 0 <= i < |chunks| :: |chunks[i]| < U32
  }

  /** All chunks, in order. */
  function FlushAll(fs: Fs, m: Machine, chunks: seq<seq<byte>>): (n: Machine)
    requires Loadable(m) && Chunks(chunks)
    ensures Loadable(n)
  {
    if chunks == [] then m else Flush(fs, FlushAll(fs, m, chunks[..|chunks| - 1]), chunks[|chunks| - 1])
  }

  function Concat(chunks: seq<seq<byte>>): seq<byte> {
    if chunks == [] then [] else Concat(chunks[..|chunks| - 1]) + chunks[|chunks| - 1]
  }

  /** The variables as unpack_to_rootfs sets them up; `writes` is what the kernel_write calls will return. */
  function Fresh(fs: Fs, writes: seq<int>): (m: Machine)
    ensures Resumable(m) && m.message.None? && m.writes == writes
    ensures m.state == Start && m.thisHeader == 0 && m.links == map[] && m.events == []
    ensures |m.nameBuf| == Capacity(NameBuf) && forall i | 0 <= i < |m.nameBuf| :: m.nameBuf[i] == fs.garbage(i)
  {
    var none := Header(false, 0, 0, 0, 0, 0, 0, 0, 0, 0, 0, 0, 0, 0);
    var nameBuf := seq<byte>(Capacity(NameBuf), (i: nat) => fs.garbage(i));
    Machine(Start, Start, [], 0, 0, 0, 0, HeaderBuf, [], 0, nameBuf, none, 0, map[], [], None, writes)
  }

  lemma AgainKeeps(fs: Fs, m: Machine, outcome: Stream, writes: seq<int>)
    requires Sane(m) && Stopped(m) && m.message.None? && m.byteCount > 0 && Keeps(fs, outcome, writes, m)
    ensures Keeps(fs, outcome, writes, Again(m))
  {
    hide Feed, Finish;
    if m.buf[m.victim] == ASCII_ZERO {
      RestartKeeps(fs, m, outcome, writes);
    } else {
      JunkKeeps(fs, m, outcome, writes);
    }
  }

  lemma {:induction false} LoopKeeps(fs: Fs, m: Machine, outcome: Stream, writes: seq<int>)
    requires Sane(m) && Stopped(m) && Keeps(fs, outcome, writes, m)
    ensures Keeps(fs, outcome, writes, FlushLoop(fs, m)) && (m.message.Some? ==> FlushLoop(fs, m) == m)
    decreases m.message.None?, m.byteCount
  {
    hide Feed, Finish, Abs, Run, Sane, Stopped, Keeps, Underway;
    if m.message.None? && m.byteCount > 0 {
      var next := Again(m);
      RunFollows(fs, next);
      AgainKeeps(fs, m, outcome, writes);
      AgainEats(fs, m);
      UnderwayKeeps(fs, next, Run(fs, next), outcome, writes);
      LoopKeeps(fs, Run(fs, next), outcome, writes);
    }
  }

  lemma OutcomeIs(fs: Fs, m: Machine)
    requires Sane(m) && (m.message.None? ==> m.byteCount == 0)
    ensures Outcome(fs, m) == Abs(fs, m)
  {
    hide Feed, Finish;
    if m.message.None? {
      assert Rest(m) == [];
      FeedNothing(fs, Abs(fs, m));
    } else {
      FeedFailed(fs, m.events, Rest(m));
    }
  }

  /** The machine stands where the reference reader stands, unless a write failed or the stream alone does not say. */
  lemma FlushReads(fs: Fs, m: Machine, chunk: seq<byte>)
    requires Loadable(m) && |chunk| < U32
    ensures Read(fs, m, chunk, Flush(fs, m, chunk))
  {
    hide Feed, Finish, Run, FlushLoop, StateOk, Halted;
    if m.message.Some? {
      FeedFailed(fs, m.events, chunk);
    } else {
      var m0, outcome := Load(m, chunk), Feed(fs, Abs(fs, m), chunk);
      LoadSane(fs, m, chunk);
      assert Rest(m0) == chunk;
      RunFollows(fs, m0);
      UnderwayKeeps(fs, m0, Run(fs, m0), outcome, m.writes);
      LoopKeeps(fs, Run(fs, m0), outcome, m.writes);
      OutcomeIs(fs, Flush(fs, m, chunk));
    }
  }

  lemma {:induction false} AllReads(fs: Fs, m: Machine, chunks: seq<seq<byte>>)
    requires Loadable(m) && Chunks(chunks)
    ensures Read(fs, m, Concat(chunks), FlushAll(fs, m, chunks))
    decreases |chunks|
  {
    hide Feed, Finish, Flush, Abs;
    if chunks == [] {
      FeedNothing(fs, Abs(fs, m));
    } else {
      var init, last := chunks[..|chunks| - 1], chunks[|chunks| - 1];
      var before := FlushAll(fs, m, init);
      AllReads(fs, m, init);
      FlushReads(fs, before, last);
      ReadTrans(fs, m, Concat(init), before, last, FlushAll(fs, m, chunks));
    }
  }

  /**
   However a stream is cut, the file system sees the events that the stream as a whole means, and an error is raised exactly
   if the stream holds one.
   */
  lemma AnyCut(fs: Fs, chunks: seq<seq<byte>>, writes: seq<int>)
    requires Chunks(chunks) && Feed(fs, Initial, Concat(chunks)) != Bad
    ensures var whole, n := Feed(fs, Initial, Concat(chunks)), FlushAll(fs, Fresh(fs, writes), chunks);
            && (!WriteFailed(n) ==>
                  && Abs(fs, n) == whole && n.events == whole.events && (n.message.Some? <==> whole.Failed?)
                  && (whole.Stream? ==> n.links == whole.links && n.thisHeader == whole.pos))
            && (writes == [] ==> !WriteFailed(n) && n.writes == [])
  {
    hide Feed, Finish, FlushAll;
    var n := FlushAll(fs, Fresh(fs, writes), chunks);
    AllReads(fs, Fresh(fs, writes), chunks);
    if !WriteFailed(n) { AbsShows(fs, n); }
  }

  /** All that the file system is asked for when no write fails. */
  function Unpacked(fs: Fs, chunks: seq<seq<byte>>): seq<Event> {
    if Chunks(chunks) then FlushAll(fs, Fresh(fs, []), chunks).events else []
  }

  function EventsOf(s: Stream): seq<Event> {
    if s == Bad then [] else s.events
  }

  lemma UnpackedAnyCut(fs: Fs, chunks: seq<seq<byte>>)
    requires Chunks(chunks) && Feed(fs, Initial, Concat(chunks)) != Bad
    ensures Unpacked(fs, chunks) == EventsOf(Feed(fs, Initial, Concat(chunks)))
  {
    hide Feed, Finish, FlushAll, Abs, Fresh, Concat, Chunks;
    AnyCut(fs, chunks, []);
  }
}
