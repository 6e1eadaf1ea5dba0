/**
 The unpacker of init/initramfs.c as an object: its file-scope variables as one record, its three
 buffers as arrays, its link table as chains. The loops of the source are loops here: memcpy into a
 buffer, xwrite, do_reset, write_buffer and flush_buffer, which follow the reference reader over
 any division of the stream into chunks.
 */
module Unpacker {
  import opened Wrappers
  import opened Cpio
  import opened LinkHash
  import opened UnpackSteps
  import opened UnpackProofs
  import opened UnpackRuns
  import CpioArchive
  import CpioMeaning

  class Parser {
    const fs: Fs
    const headerBuf: array<byte>
    const nameBuf: array<byte>
    const symlinkBuf: array<byte>
    var m: Machine
    var heads: seq<seq<Entry>>
    // Stream offsets at which flush_buffer entered Start again.
    var starts: seq<nat>

    function Target(): array<byte>
      requires !m.place.InChunk?
      reads this
    {
      match m.place
      case HeaderBuf => headerBuf
      case NameBuf => nameBuf
      case SymlinkBuf => symlinkBuf
    }

    /** The buffers hold what was gathered in them, and the link table what was registered. */
    ghost predicate Memory()
      reads this, headerBuf, nameBuf, symlinkBuf
    {
      && headerBuf.Length == Capacity(HeaderBuf)
      && nameBuf.Length == Capacity(NameBuf)
      && symlinkBuf.Length == Capacity(SymlinkBuf)
      && headerBuf != nameBuf && headerBuf != symlinkBuf && nameBuf != symlinkBuf
      && Represents(heads, m.links)
      && nameBuf[..] == m.nameBuf
      && (!m.place.InChunk? ==> |m.acc| <= Target().Length && Target()[..|m.acc|] == m.acc)
    }

    ghost predicate Valid()
      reads this, headerBuf, nameBuf, symlinkBuf
    {
      Memory() && Sane(m) && forall i | 0 <= i < |starts| :: starts[i] % 4 == 0
    }

    constructor (fs: Fs, writes: seq<int>)
      ensures Valid() && this.fs == fs && m == Fresh(fs, writes) && starts == []
      ensures fresh(headerBuf) && fresh(nameBuf) && fresh(symlinkBuf)
    {
      this.fs := fs;
      headerBuf := new byte[HEADER_SIZE];
      nameBuf := new byte[NAlign(PATH_MAX)](i => fs.garbage(i));
      symlinkBuf := new byte[PATH_MAX + NAlign(PATH_MAX) + 1];
      m := Fresh(fs, writes);
      heads := Empty();
      starts := [];
    }

    static method MemCopy(dst: array<byte>, at: nat, src: seq<byte>)
      requires at + |src| <= dst.Length
      modifies dst
      ensures dst[..] == old(dst[..at]) + src + old(dst[at + |src|..])
    {
      for i := 0 to |src|
        invariant dst[..] == old(dst[..at]) + src[..i] + old(dst[at + i..])
      {
        dst[at + i] := src[i];
      }
    }

    /** What a buffer holds once s was copied behind acc. */
    static lemma Front(buf: seq<byte>, acc: seq<byte>, s: seq<byte>, was: seq<byte>)
      requires |acc| + |s| <= |was| && was[..|acc|] == acc && buf == was[..|acc|] + s + was[|acc| + |s|..]
      ensures buf == Over(was, acc + s) && |acc + s| <= |buf| && buf[..|acc + s|] == acc + s
    {
    }

    /** memcpy behind what was gathered so far. */
    method Store(s: seq<byte>)
      requires Memory() && !m.place.InChunk? && |m.acc| + |s| <= Capacity(m.place)
      modifies headerBuf, nameBuf, symlinkBuf
      ensures |m.acc + s| <= Target().Length && Target()[..|m.acc + s|] == m.acc + s
      ensures nameBuf[..] == if m.place == NameBuf then Over(m.nameBuf, m.acc + s) else m.nameBuf
    {
      hide Represents, Over;
      var acc := m.acc;
      match m.place {
        case HeaderBuf =>
          MemCopy(headerBuf, |acc|, s);
          Front(headerBuf[..], acc, s, old(headerBuf[..]));
        case NameBuf =>
          MemCopy(nameBuf, |acc|, s);
          Front(nameBuf[..], acc, s, old(nameBuf[..]));
        case SymlinkBuf =>
          MemCopy(symlinkBuf, |acc|, s);
          Front(symlinkBuf[..], acc, s, old(symlinkBuf[..]));
      }
    }

    /** Collecting appends to what its buffer holds, within its bounds. */
    static lemma CollectShape(m: Machine)
      requires Sane(m) && m.state == Collect
      ensures var n := if m.byteCount < m.remains then m.byteCount else m.remains;
              var a := CollectStep(m).m;
              && !m.place.InChunk? && |m.acc| + n <= Capacity(m.place)
              && a.place == m.place && a.links == m.links && a.acc == m.acc + m.buf[m.victim..m.victim + n]
              && a.nameBuf == if m.place == NameBuf then Over(m.nameBuf, a.acc) else m.nameBuf
    {
      Bounded(m);
      assert !m.place.InChunk?;
      hide StateOk;
    }

    method DoCollect() returns (stop: bool)
      requires Memory() && Sane(m) && m.state == Collect
      modifies this`m, headerBuf, nameBuf, symlinkBuf
      ensures Memory() && Act(m, stop) == CollectStep(old(m))
    {
      hide Represents, StateOk, Halted, Over, Unsigned;
      CollectShape(m);
      var n := if m.byteCount < m.remains then m.byteCount else m.remains;
      var s := m.buf[m.victim..m.victim + n];
      Store(s);
      m := Eat(m.(acc := m.acc + s, nameBuf := nameBuf[..], remains := m.remains - n), n);
      stop := m.remains != 0;
      if !stop {
        m := m.(state := m.nextState);
      }
    }

    method DoReset() returns (stop: bool)
      requires Memory() && Sane(m) && m.state == Reset
      modifies this`m
      ensures Memory() && Act(m, stop) == ResetStep(old(m))
    {
      while m.byteCount > 0 && m.buf[m.victim] == 0
        invariant Memory() && ChunkOk(m) && m.buf == old(m.buf) && Short(m)
        invariant EatZeros(m) == EatZeros(old(m))
      {
        m := Eat(m, 1);
      }
      if m.byteCount > 0 && m.thisHeader % 4 != 0 {
        m := Raise(m, BrokenPadding);
      }
      stop := true;
    }

    /** The bytes at `collected`. */
    function Collected(): (s: seq<byte>)
      requires Memory()
      reads this, headerBuf, nameBuf, symlinkBuf
      ensures s == m.acc
    {
      if m.place.InChunk? then m.acc else Target()[..|m.acc|]
    }

    method MaybeLink(name: seq<byte>, asked: seq<Event>) returns (result: int, events: seq<Event>)
      requires Memory()
      modifies this`m, this`heads
      ensures Memory() && m == old(m).(links := m.links)
      ensures Cpio.MaybeLink(result, m.links, events) == TryLink(fs, m.hdr, name, old(m.links), asked)
    {
      result, events := 0, asked;
      if m.hdr.nlink >= 2 {
        var found;
        found, heads := FindLink(heads, KeyOf(m.hdr), name, m.links);
        if found.Some? {
          events := events + [CleanPath(name, 0)];
          var ok := fs.linkOk(events);
          events := events + [Link(found.value, name, ok)];
          result := if ok then 1 else -1;
        } else {
          m := m.(links := m.links[KeyOf(m.hdr) := name]);
        }
      }
    }

    /** The C string at the front of two pieces of memory, one behind the other. */
    static method ReadString(region: seq<byte>, behind: seq<byte>) returns (s: seq<byte>)
      ensures s == CString(region + behind)
    {
      ghost var memory := region + behind;
      var i := 0;
      s := [];
      assert memory[0..] == memory;
      while i < |region| + |behind|
        invariant i <= |memory| && CString(memory) == s + CString(memory[i..])
      {
        var c := if i < |region| then region[i] else behind[i - |region|];
        if c == 0 {
          return;
        }
        assert memory[i..][1..] == memory[i + 1..];
        s := s + [c];
        i := i + 1;
      }
    }

    /** The C string at `collected`, read from the chunk or from name_buf, and from what lies behind if need be. */
    method StringAtCollected() returns (name: seq<byte>)
      requires Memory() && Sane(m) && m.state == GotName
      ensures name == NameRead(fs, m)
    {
      hide Represents, Halted, CString;
      var region := if m.place.InChunk? then m.acc + m.buf[m.victim..] else nameBuf[..];
      assert m.acc + Beyond(fs, m) == region + fs.behind(m.events);
      name := ReadString(region, fs.behind(m.events));
    }

    /** The file-system calls of do_name, once the name has been read. */
    method CallsFor(name: seq<byte>)
      requires Memory() && Sane(m) && m.state == GotName && name == NameRead(fs, m)
      modifies this`m, this`heads
      ensures Memory() && Act(m, false) == NameStep(fs, old(m))
    {
      hide NameRead;
      var h := m.hdr;
      m := m.(state := SkipIt, nextState := Reset);
      if name == TRAILER {
        heads := Empty();
        m := m.(links := map[]);
        return;
      }
      var events := m.events + [CleanPath(name, h.mode)];
      if h.Type() == S_IFREG {
        var result;
        result, events := MaybeLink(name, events);
        if result >= 0 {
          if fs.openOk(events) {
            m := m.(ioCsum := 0, state := CopyFile);
            events := events + [OpenedFile(h, name, result == 1)];
          } else {
            events := events + [OpenFailed(name)];
          }
        }
      } else if h.Type() == S_IFDIR {
        events := events + [Dir(name, h.mode, h.uid, h.gid, h.mtime)];
      } else if IsDevice(h.Type()) {
        var result;
        result, events := MaybeLink(name, events);
        if result == 0 {
          events := events + [Node(name, h.mode, h.rmajor, h.rminor, h.uid, h.gid, h.mtime)];
        }
      }
      m := m.(events := events);
    }

    method DoName() returns (stop: bool)
      requires Memory() && Sane(m) && m.state == GotName
      modifies this`m, this`heads
      ensures Memory() && Act(m, stop) == NameStep(fs, old(m))
      ensures CpioMeaning.Names(fs, old(m.hdr), NameRead(fs, old(m)), CpioMeaning.LinkedTo(old(m.hdr), old(m.links)), [], false,
                                old(m.events), m.events)
      ensures m.state == (if |m.events| > |old(m.events)| && m.events[|m.events| - 1].File? then CopyFile else SkipIt)
    {
      hide CpioMeaning.Names, CpioMeaning.LinkedTo, NameEntry, NameRead;
      var name := StringAtCollected();
      CpioMeaning.NameMeans(fs, m.hdr, name, m.links, m.events);
      CallsFor(name);
      stop := false;
    }

    /** A C string ends at the first NUL. */
    static lemma {:induction false} CStringEnds(s: seq<byte>, at: nat, end: nat)
      requires at <= end < |s| && s[end] == 0
      ensures CString(s[at..]) == CString(s[at..end]) && s[at..] + [] == s[at..]
      decreases end - at
    {
      if at < end {
        assert s[at..][1..] == s[at + 1..] && s[at..end][1..] == s[at + 1..end];
        CStringEnds(s, at + 1, end);
      }
    }

    method DoSymlink() returns (stop: bool)
      requires Memory() && Sane(m) && m.state == GotSymlink
      modifies this`m, symlinkBuf
      ensures Memory() && Act(m, stop) == SymlinkStep(old(m))
    {
      Bounded(m);
      var at, end := NAlign(m.hdr.nameLen), NAlign(m.hdr.nameLen) + m.hdr.bodyLen;
      symlinkBuf[end] := 0;
      assert symlinkBuf[..end] == m.acc && symlinkBuf[at..end] == m.acc[at..];
      CStringEnds(symlinkBuf[..], 0, end);
      CStringEnds(symlinkBuf[..], at, end);
      var name := ReadString(symlinkBuf[..], []);
      var target := ReadString(symlinkBuf[at..], []);
      var made := [CleanPath(name, 0), Symlink(name, target, m.hdr.uid, m.hdr.gid, m.hdr.mtime)];
      m := m.(state := SkipIt, nextState := Reset, events := m.events + made);
      stop := false;
    }

    /** The u32 running sum of xwrite. */
    static method AddBytes(sum: nat, s: seq<byte>) returns (r: nat)
      ensures r == Csum(sum, s)
    {
      r := sum;
      for i := 0 to |s|
        invariant r == Csum(sum, s[..i])
      {
        assert s[..i + 1][..i] == s[..i];
        r := (r + s[i]) % U32;
      }
      assert s[..|s|] == s;
    }

    /** xwrite: repeats kernel_write until all n bytes are written, or it gives up. */
    static method Xwrite(m0: Machine, n: nat) returns (out: nat, m: Machine)
      requires ChunkOk(m0) && n <= m0.byteCount && Writing(m0.events)
      ensures var w := UnpackSteps.Xwrite(n, m0.writes);
              out == w.out && m == Wrote(m0, m0.buf[m0.victim..m0.victim + w.out], w.writes)
    {
      hide Csum, Written, UnpackSteps.Xwrite;
      ghost var all := UnpackSteps.Xwrite(n, m0.writes);
      var p := m0.buf[m0.victim..m0.victim + n];
      out, m := 0, m0;
      WroteNothing(m0);
      while out < n
        invariant out <= n
        invariant m == Wrote(m0, p[..out], m.writes)
        invariant var w := UnpackSteps.Xwrite(n - out, m.writes); all == Xwritten(out + w.out, w.writes)
        decreases n - out, |m.writes|
      {
        XwriteStep(n - out, m.writes);
        var rv := n - out;
        if m.writes != [] {
          rv := if m.writes[0] < rv then m.writes[0] else rv;
          m := m.(writes := m.writes[1..]);
        }
        if rv < 0 {
          if rv == -EINTR || rv == -EAGAIN {
            continue;
          }
          break;
        } else if rv == 0 {
          break;
        }
        var s := p[out..out + rv];
        WroteMore(m0, p[..out], s, m.writes);
        assert p[..out] + s == p[..out + rv];
        var sum := m.ioCsum;
        if m.hdr.csumPresent {
          sum := AddBytes(sum, s);
        }
        m := m.(ioCsum := sum, events := Written(m.events, s));
        out := out + rv;
      }
      if out == n { XwriteDone(m.writes); }
      assert p[..all.out] == m0.buf[m0.victim..m0.victim + all.out];
    }

    /** One call of kernel_write, which takes at most the bytes it is given. */
    static lemma XwriteStep(count: nat, writes: seq<int>)
      requires count > 0
      ensures var rv := if writes == [] || writes[0] >= count then count else writes[0];
              var rest := if writes == [] then [] else writes[1..];
              UnpackSteps.Xwrite(count, writes)
              == if rv == -EINTR || rv == -EAGAIN then UnpackSteps.Xwrite(count, rest)
                 else if rv <= 0 then Xwritten(0, rest)
                 else var more := UnpackSteps.Xwrite(count - rv, rest); Xwritten(rv + more.out, more.writes)
    {
    }

    static lemma XwriteDone(writes: seq<int>)
      ensures UnpackSteps.Xwrite(0, writes) == Xwritten(0, writes)
    {
    }

    static method Copy(m0: Machine) returns (m: Machine, stop: bool)
      requires Sane(m0) && m0.state == CopyFile
      ensures Act(m, stop) == CopyStep(m0)
    {
      assert Writing(m0.events);
      hide StateOk, Closed, Written, Csum;
      var whole := m0.byteCount >= m0.hdr.bodyLen;
      var n := if whole then m0.hdr.bodyLen else m0.byteCount;
      var out;
      out, m := Xwrite(m0, n);
      if out != n {
        m := Raise(m, WriteError);
      }
      assert m == WriteStep(m0, n);
      hide WriteStep, Sane;
      stop := !whole;
      if whole {
        m := m.(events := Closed(m.events));
        if m.hdr.csumPresent && m.ioCsum != m.hdr.csum {
          m := Raise(m, BadChecksum);
        }
        m := Eat(m, n).(state := SkipIt);
      } else {
        m := Eat(m.(hdr := m.hdr.(bodyLen := m.hdr.bodyLen - n)), n);
      }
    }

    method DoCopy() returns (stop: bool)
      requires Memory() && Sane(m) && m.state == CopyFile
      modifies this`m
      ensures Memory() && Act(m, stop) == CopyStep(old(m))
    {
      CopyKeeps(m);
      m, stop := Copy(m);
    }

    /** read_into: in place if the chunk holds all of it, else it is collected in the buffer. */
    method ReadInto(dest: Place, size: nat, next: State)
      requires Memory() && ChunkOk(m) && !dest.InChunk?
      modifies this`m
      ensures Memory() && m == UnpackSteps.ReadInto(old(m), dest, size, next)
    {
      if m.byteCount >= size {
        m := m.(place := InChunk, acc := m.buf[m.victim..m.victim + size]);
        m := Eat(m, size);
        m := m.(state := next);
      } else {
        m := m.(place := dest, acc := [], remains := size, nextState := next, state := Collect);
      }
    }

    method DoStart() returns (stop: bool)
      requires Memory() && ChunkOk(m)
      modifies this`m
      ensures Memory() && Act(m, stop) == StartStep(old(m))
    {
      ReadInto(HeaderBuf, HEADER_SIZE, GotHeader);
      stop := false;
    }

    method DoHeader() returns (stop: bool)
      requires Memory() && ChunkOk(m) && |m.acc| == HEADER_SIZE
      modifies this`m
      ensures Memory() && Act(m, stop) == HeaderStep(old(m))
    {
      hide Represents, ParsedFields;
      var parsed := ParseHeader(Collected());
      if parsed.None? {
        m := Raise(m, BadMagic);
        return true;
      }
      var h := parsed.value;
      m := m.(hdr := h, nextHeader := RoundUp4(m.thisHeader + NAlign(h.nameLen) + h.bodyLen));
      m := m.(state := SkipIt);
      stop := false;
      if h.nameLen == 0 || h.nameLen > PATH_MAX {
        return;
      }
      if h.Type() == S_IFLNK {
        if h.bodyLen > PATH_MAX {
          return;
        }
        m := m.(place := SymlinkBuf, acc := [], remains := NAlign(h.nameLen) + h.bodyLen);
        m := m.(nextState := GotSymlink, state := Collect);
        return;
      }
      if h.Type() == S_IFREG || h.bodyLen == 0 {
        ReadInto(NameBuf, NAlign(h.nameLen), GotName);
      }
    }

    method DoSkip() returns (stop: bool)
      requires Memory() && ChunkOk(m) && m.thisHeader <= m.nextHeader
      modifies this`m
      ensures Memory() && Act(m, stop) == SkipStep(old(m))
    {
      if m.thisHeader + m.byteCount < m.nextHeader {
        m := Eat(m, m.byteCount);
        stop := true;
      } else {
        m := Eat(m, m.nextHeader - m.thisHeader);
        m := m.(state := m.nextState);
        stop := false;
      }
    }

    method Dispatch() returns (stop: bool)
      requires Memory() && Sane(m)
      modifies this`m, this`heads, headerBuf, nameBuf, symlinkBuf
      ensures Memory() && Act(m, stop) == Action(fs, old(m))
    {
      match m.state
      case Collect => stop := DoCollect();
      case GotName => stop := DoName();
      case CopyFile => stop := DoCopy();
      case GotSymlink => stop := DoSymlink();
      case Reset => stop := DoReset();
      case Start => stop := DoStart();
      case GotHeader => stop := DoHeader();
      case SkipIt => stop := DoSkip();
    }

    /** write_buffer: runs actions until one stops. */
    method WriteBuffer(chunk: seq<byte>) returns (written: nat)
      requires Valid() && Sane(Load(m, chunk))
      modifies this`m, this`heads, headerBuf, nameBuf, symlinkBuf
      ensures Valid() && m == Run(fs, Load(old(m), chunk)) && m.buf == chunk && written == m.victim <= |chunk|
    {
      hide Run, Action, StateOk, Represents;
      m := Load(m, chunk);
      ghost var m0 := m;
      var stop := false;
      while !stop
        invariant Memory() && Sane(m)
        invariant Run(fs, m0) == if stop then m else Run(fs, m)
        decreases !stop, m.byteCount, Rank(m.state)
      {
        RunStep(fs, m);
        stop := Dispatch();
      }
      RunFollows(fs, m0);
      written := m.victim;
    }

    /** The body of flush_buffer's loop: the next byte decides how to go on. */
    method Resume(rest: seq<byte>) returns (rest': seq<byte>)
      requires Valid() && Stopped(m) && m.buf == rest && m.victim < |rest| && m.message.None?
      modifies this`m, this`starts
      ensures Valid() && Load(m, rest') == Again(old(m)) && |rest'| < U32
    {
      rest' := rest;
      // The byte is not 0: do_reset has eaten the zeros, so the source's second branch is never taken.
      if rest[m.victim] == ASCII_ZERO {
        rest' := rest[m.victim..];
        starts := starts + [m.thisHeader];
        m := m.(state := Start);
      } else {
        m := Raise(m, Junk);
      }
    }

    static lemma FlushOnce(fs: Fs, m: Machine)
      requires Sane(m) && Stopped(m) && m.message.None? && m.byteCount > 0
      ensures FlushLoop(fs, m) == FlushLoop(fs, Run(fs, Again(m)))
      ensures var n := Run(fs, Again(m)); n.message.Some? || n.byteCount < m.byteCount
    {
      AgainEats(fs, m);
    }

    static lemma FlushEnds(fs: Fs, m: Machine)
      requires Sane(m) && Stopped(m)
      ensures m.message.Some? || m.byteCount == 0 ==> FlushLoop(fs, m) == m
    {
    }

    /** flush_buffer: one chunk of the stream. */
    method FlushBuffer(chunk: seq<byte>) returns (result: int)
      requires Valid() && Loadable(m) && |chunk| < U32
      modifies this, headerBuf, nameBuf, symlinkBuf
      ensures Valid() && m == Flush(fs, old(m), chunk)
      ensures result == if old(m.message).Some? then -1 else |chunk|
    {
      hide Run, FlushLoop, Memory, Again, StateOk;
      if m.message.Some? {
        return -1;
      }
      LoadSane(fs, m, chunk);
      var rest := chunk;
      var written := WriteBuffer(rest);
      ghost var m1 := m;
      while written < |rest| && m.message.None?
        invariant Valid() && Stopped(m) && m.buf == rest && written == m.victim <= |rest| < U32
        invariant FlushLoop(fs, m1) == FlushLoop(fs, m)
        decreases m.message.None?, m.byteCount
      {
        FlushOnce(fs, m);
        rest := Resume(rest);
        written := WriteBuffer(rest);
      }
      FlushEnds(fs, m);
      result := |chunk|;
    }
  }

  /** A decompressor handing over its output piece by piece. */
  method Unpack(fs: Fs, chunks: seq<seq<byte>>, writes: seq<int>) returns (p: Parser)
    requires Chunks(chunks)
    ensures p.Valid() && p.fs == fs && p.m == FlushAll(fs, Fresh(fs, writes), chunks)
    ensures forall i | 0 <= i < |p.starts| :: p.starts[i] % 4 == 0
    ensures var whole := Feed(fs, Initial, Concat(chunks));
            whole != Bad ==>
              && (!WriteFailed(p.m) ==>
                    && p.m.events == whole.events && (p.m.message.Some? <==> whole.Failed?)
                    && (whole.Stream? ==> p.m.links == whole.links && p.m.thisHeader == whole.pos))
              && (writes == [] ==> !WriteFailed(p.m))
  {
    hide Flush, Feed;
    p := new Parser(fs, writes);
    for i := 0 to |chunks|
      invariant p.Valid() && p.fs == fs && p.m == FlushAll(fs, Fresh(fs, writes), chunks[..i])
      invariant fresh(p) && fresh(p.headerBuf) && fresh(p.nameBuf) && fresh(p.symlinkBuf)
    {
      assert chunks[..i + 1][..i] == chunks[..i];
      var result := p.FlushBuffer(chunks[i]);
    }
    assert chunks[..|chunks|] == chunks;
    if Feed(fs, Initial, Concat(chunks)) != Bad { AnyCut(fs, chunks, writes); }
  }

  /** Any archive, cut in any way: what is unpacked is what its entries say. */
  method UnpackArchive(fs: Fs, entries: seq<CpioArchive.Entry>, chunks: seq<seq<byte>>)
    returns (p: Parser, ghost stages: seq<seq<Event>>)
    requires CpioArchive.AllWellFormed(entries) && Concat(chunks) == CpioArchive.EncodeAll(entries) && Chunks(chunks)
    ensures p.Valid() && p.m.message.None?
    ensures CpioMeaning.LeavesAll(fs, entries, stages) && p.m.events == stages[|entries|]
    ensures p.m.thisHeader == |CpioArchive.EncodeAll(entries)|
  {
    hide *;
    CpioArchive.ArchiveMeans(fs, entries);
    stages := CpioMeaning.ArchiveLeaves(fs, entries);
    p := Unpack(fs, chunks, []);
  }
}
