/**
 The eight actions of the unpacker of init/initramfs.c, as functions on its global variables.

 The machine is handed the stream in arbitrary chunks. It reads headers and names in place when a
 chunk holds them whole, and otherwise collects them in three fixed buffers. The actions are defined
 for chunks of any length; `Sane` is what they keep while chunks are shorter than 2^32 bytes.
 */
module UnpackSteps {
  import opened Wrappers
  import opened Cpio

  datatype State = Start | Collect | GotHeader | SkipIt | GotName | CopyFile | GotSymlink | Reset

  datatype Error = BadMagic | BrokenPadding | WriteError | BadChecksum | Junk

  /** Where `collected` points: into the chunk, or to the start of one of the buffers. */
  datatype Place = InChunk | HeaderBuf | NameBuf | SymlinkBuf

  const EINTR: int := 4
  const EAGAIN: int := 11

  datatype Machine = Machine(
    state: State, nextState: State,
    buf: seq<byte>, victim: nat, byteCount: nat,  // the current chunk and what is left of it
    thisHeader: nat, nextHeader: nat,
    place: Place, acc: seq<byte>, remains: nat,  // `collected`, the bytes gathered there, how many are missing
    nameBuf: seq<byte>,  // all that name_buf holds, left-over bytes included
    hdr: Header, ioCsum: nat, links: Links, events: seq<Event>, message: Option<Error>,
    writes: seq<int>)  // what the next kernel_write calls return; later ones write all they are given

  datatype Act = Act(m: Machine, stop: bool)

  predicate Gathers(s: State) {
    s == GotHeader || s == GotName || s == GotSymlink
  }

  function WantedFor(s: State, h: Header): Wanted
    requires Gathers(s)
  {
    if s == GotHeader then WantHeader else if s == GotName then WantName(h) else WantLink(h)
  }

  function PlaceFor(s: State): Place
    requires Gathers(s)
  {
    if s == GotHeader then HeaderBuf else if s == GotName then NameBuf else SymlinkBuf
  }

  /** The size of each buffer, as allocated by unpack_to_rootfs. */
  function Capacity(p: Place): nat
    requires !p.InChunk?
  {
    match p
    case HeaderBuf => HEADER_SIZE
    case NameBuf => NAlign(PATH_MAX)
    case SymlinkBuf => PATH_MAX + NAlign(PATH_MAX) + 1
  }

  function Rank(s: State): nat {
    match s
    case Reset => 0
    case Collect => 1
    case SkipIt => 2
    case CopyFile => 3
    case GotName => 4
    case GotSymlink => 4
    case GotHeader => 5
    case Start => 6
  }

  // ---------- the actions ----------

  predicate ChunkOk(m: Machine) {
    m.victim + m.byteCount == |m.buf|
  }

  /** The chunk's length fits an unsigned int. */
  predicate Short(m: Machine) {
    |m.buf| < U32
  }

  function Raise(m: Machine, e: Error): Machine {
    if m.message.None? then m.(message := Some(e)) else m
  }

  /** A number passed as an unsigned int. */
  function Unsigned(n: nat): (k: nat)
    ensures k <= n && (n < U32 ==> k == n)
  {
    if n < U32 then n else n % U32
  }

  /** The argument of eat() is an unsigned int. */
  function Eat(m: Machine, n: nat): Machine
    requires Unsigned(n) <= m.byteCount
  {
    var k := Unsigned(n);
    m.(victim := m.victim + k, thisHeader := m.thisHeader + k, byteCount := m.byteCount - k)
  }

  function ReadInto(m: Machine, dest: Place, size: nat, next: State): Machine
    requires ChunkOk(m)
  {
    if m.byteCount >= size then
      Eat(m.(place := InChunk, acc := m.buf[m.victim..m.victim + size], state := next), size)
    else m.(place := dest, acc := [], remains := size, nextState := next, state := Collect)
  }

  function StartStep(m: Machine): Act
    requires ChunkOk(m)
  {
    Act(ReadInto(m, HeaderBuf, HEADER_SIZE, GotHeader), false)
  }

  /** A buffer with s at its front. */
  function Over(buf: seq<byte>, s: seq<byte>): (r: seq<byte>)
    ensures |r| == |buf| && (|s| <= |buf| ==> s <= r)
  {
    if |s| <= |buf| then s + buf[|s|..] else buf
  }

  function CollectStep(m: Machine): Act
    requires ChunkOk(m)
  {
    var n := if m.byteCount < m.remains then m.byteCount else m.remains;
    var acc := m.acc + m.buf[m.victim..m.victim + n];
    var eaten := Eat(m.(acc := acc, nameBuf := if m.place == NameBuf then Over(m.nameBuf, acc) else m.nameBuf,
                        remains := m.remains - n), n);
    if eaten.remains != 0 then Act(eaten, true) else Act(eaten.(state := m.nextState), false)
  }

  /** do_header once the header is parsed. */
  function ParsedStep(m: Machine, h: Header): Machine
    requires ChunkOk(m)
  {
    var next := RoundUp4(m.thisHeader + NAlign(h.nameLen) + h.bodyLen);
    var m1 := m.(hdr := h, nextHeader := next, state := SkipIt);
    if h.nameLen == 0 || h.nameLen > PATH_MAX then m1
    else if h.Type() == S_IFLNK then
      if h.bodyLen > PATH_MAX then m1
      else m1.(place := SymlinkBuf, acc := [], remains := NAlign(h.nameLen) + h.bodyLen,
               nextState := GotSymlink, state := Collect)
    else if h.Type() == S_IFREG || h.bodyLen == 0 then ReadInto(m1, NameBuf, NAlign(h.nameLen), GotName)
    else m1
  }

  function HeaderStep(m: Machine): Act
    requires ChunkOk(m) && |m.acc| == HEADER_SIZE
  {
    var parsed := ParseHeader(m.acc);
    if parsed.None? then Act(Raise(m, BadMagic), true) else Act(ParsedStep(m, parsed.value), false)
  }

  function SkipStep(m: Machine): Act
    requires ChunkOk(m) && m.thisHeader <= m.nextHeader
  {
    if m.thisHeader + m.byteCount < m.nextHeader then Act(Eat(m, m.byteCount), true)
    else Act(Eat(m, m.nextHeader - m.thisHeader).(state := m.nextState), false)
  }

  function EatZeros(m: Machine): (r: Machine)
    requires ChunkOk(m)
    ensures ChunkOk(r)
    decreases m.byteCount
  {
    if m.byteCount > 0 && m.buf[m.victim] == 0 then EatZeros(Eat(m, 1)) else m
  }

  function ResetStep(m: Machine): Act
    requires ChunkOk(m)
  {
    var r := EatZeros(m);
    Act(if r.byteCount > 0 && r.thisHeader % 4 != 0 then Raise(r, BrokenPadding) else r, true)
  }

  /** What follows the gathered bytes in memory: the rest of the chunk or of name_buf, and what lies behind that. */
  function Beyond(fs: Fs, m: Machine): seq<byte>
    requires m.victim <= |m.buf|
  {
    (if m.place.InChunk? then m.buf[m.victim..] else if |m.acc| <= |m.nameBuf| then m.nameBuf[|m.acc|..] else [])
    + fs.behind(m.events)
  }

  /** The C string that do_name reads at `collected`. */
  function NameRead(fs: Fs, m: Machine): seq<byte>
    requires m.victim <= |m.buf|
  {
    CString(m.acc + Beyond(fs, m))
  }

  function NameStep(fs: Fs, m: Machine): Act
    requires m.victim <= |m.buf|
  {
    var r := NameEntry(fs, m.hdr, NameRead(fs, m), m.links, m.events);
    Act(m.(links := r.links, events := r.events, nextState := Reset,
           state := if r.isOpen then CopyFile else SkipIt,
           ioCsum := if r.isOpen then 0 else m.ioCsum), false)
  }

  // collected[N_ALIGN(name_len) + body_len] is set to 0 first, which is where `acc` ends.
  function SymlinkStep(m: Machine): Act
    requires NAlign(m.hdr.nameLen) <= |m.acc|
  {
    var name, target := CString(m.acc), CString(m.acc[NAlign(m.hdr.nameLen)..]);
    Act(m.(state := SkipIt, nextState := Reset,
           events := m.events + [CleanPath(name, 0), Symlink(name, target, m.hdr.uid, m.hdr.gid, m.hdr.mtime)]), false)
  }

  /** What one xwrite call achieved: `out` bytes of s, in one or more pieces. */
  datatype Xwritten = Xwritten(out: nat, writes: seq<int>)

  function Xwrite(count: nat, writes: seq<int>): (r: Xwritten)
    ensures r.out <= count
    ensures writes == [] ==> r.out == count && r.writes == []
    decreases |writes|
  {
    if count == 0 || writes == [] then Xwritten(count, writes)
    else if writes[0] == -EINTR || writes[0] == -EAGAIN then Xwrite(count, writes[1..])
    else if writes[0] <= 0 then Xwritten(0, writes[1..])
    else if writes[0] >= count then Xwritten(count, writes[1..])
    else
      var more := Xwrite(count - writes[0], writes[1..]);
      Xwritten(writes[0] + more.out, more.writes)
  }

  function Wrote(m: Machine, s: seq<byte>, writes: seq<int>): Machine
    requires Writing(m.events)
  {
    m.(events := Written(m.events, s), writes := writes,
       ioCsum := if m.hdr.csumPresent then Csum(m.ioCsum, s) else m.ioCsum)
  }

  /** xwrite of the next n bytes of the chunk, and its effect on file, checksum and error. */
  function WriteStep(m: Machine, n: nat): Machine
    requires ChunkOk(m) && n <= m.byteCount && Writing(m.events)
  {
    var w := Xwrite(n, m.writes);
    var m1 := Wrote(m, m.buf[m.victim..m.victim + w.out], w.writes);
    if w.out != n then Raise(m1, WriteError) else m1
  }

  lemma WroteNothing(m: Machine)
    requires Writing(m.events)
    ensures Wrote(m, [], m.writes) == m
  {
    var data := m.events[|m.events| - 1].data;
    assert data + [] == data;
    assert Written(m.events, []) == m.events;
  }

  lemma WroteMore(m: Machine, s: seq<byte>, t: seq<byte>, writes: seq<int>)
    requires Writing(m.events)
    ensures Wrote(Wrote(m, s, writes), t, writes) == Wrote(m, s + t, writes)
  {
    var data := m.events[|m.events| - 1].data;
    assert (data + s) + t == data + (s + t);
    assert Written(Written(m.events, s), t) == Written(m.events, s + t);
    CsumConcat(m.ioCsum, s, t);
  }

  function CopyStep(m: Machine): Act
    requires ChunkOk(m) && Writing(m.events)
  {
    if m.byteCount >= m.hdr.bodyLen then
      var m1 := WriteStep(m, m.hdr.bodyLen);
      var m2 := m1.(events := Closed(m1.events));
      var m3 := if m.hdr.csumPresent && m1.ioCsum != m.hdr.csum then Raise(m2, BadChecksum) else m2;
      Act(Eat(m3, m.hdr.bodyLen).(state := SkipIt), false)
    else
      var m1 := WriteStep(m, m.byteCount);
      Act(Eat(m1.(hdr := m.hdr.(bodyLen := m.hdr.bodyLen - m.byteCount)), m.byteCount), true)
  }

  /** write_buffer's prologue. */
  function Load(m: Machine, chunk: seq<byte>): Machine {
    m.(buf := chunk, victim := 0, byteCount := |chunk|)
  }

  // ---------- what every action keeps ----------

  predicate NameLenOk(h: Header) {
    0 < h.nameLen <= PATH_MAX
  }

  /** The lengths parsed from the header, with `left` bytes of name or link still to come. */
  predicate Fits(m: Machine, s: State, left: nat)
    requires Gathers(s)
  {
    && (s != GotHeader ==> NameLenOk(m.hdr))
    && (s == GotName ==> m.nextHeader == RoundUp4(m.thisHeader + left + m.hdr.bodyLen))
    && (s == GotSymlink ==> m.hdr.bodyLen <= PATH_MAX && m.nextHeader == RoundUp4(m.thisHeader + left))
  }

  // do_header sets an entry aside without setting next_state, which may then still be Start or GotHeader.
  predicate Leftover(m: Machine) {
    m.nextState == Start || m.nextState == Reset || (m.nextState == GotHeader && m.place == HeaderBuf && |m.acc| == HEADER_SIZE)
  }

  predicate StateOk(m: Machine) {
    match m.state
    case Start => m.nextState == Start || m.nextState == Reset
    case Collect =>
      && Gathers(m.nextState) && m.place == PlaceFor(m.nextState)
      && 0 < m.remains && |m.acc| + m.remains == Need(WantedFor(m.nextState, m.hdr))
      && Fits(m, m.nextState, m.remains)
    case SkipIt =>
      && m.thisHeader <= m.nextHeader && m.nextHeader % 4 == 0 && Leftover(m)
      && (m.nextState != Reset ==> m.thisHeader < m.nextHeader)
    case CopyFile =>
      && m.nextState == Reset && Writing(m.events)
      && m.nextHeader == RoundUp4(m.thisHeader + m.hdr.bodyLen)
      && (m.hdr.csumPresent ==> m.ioCsum == Csum(0, m.events[|m.events| - 1].data))
    case Reset => m.nextState == Reset
    case _ =>
      && |m.acc| == Need(WantedFor(m.state, m.hdr)) && Fits(m, m.state, 0)
      && (m.place == PlaceFor(m.state) || (m.place == InChunk && m.state != GotSymlink))
      && (m.state == GotHeader ==> Leftover(m))
  }

  /** After an error other than a failed write, nothing but a skip to the end of the entry is left to do. */
  predicate Halted(m: Machine) {
    m.message.Some? && m.message != Some(WriteError) ==>
      || m.state == Reset || (m.state == SkipIt && m.nextState == Reset)
      || (m.state == GotHeader && |m.acc| == HEADER_SIZE && ParseHeader(m.acc).None?)
  }

  /** Holds between any two actions, on any input. */
  predicate Sane(m: Machine) {
    ChunkOk(m) && Short(m) && |m.nameBuf| == Capacity(NameBuf) && StateOk(m) && Halted(m)
  }

  /** Nothing points into the chunk any more: the next one may be loaded. */
  predicate Resumable(m: Machine) {
    Sane(m) && !Gathers(m.state) && (m.state == CopyFile ==> m.hdr.bodyLen > 0)
  }

  /** Nothing gathered ever exceeds its buffer, and do_symlink has room for its terminator. */
  lemma Bounded(m: Machine)
    requires Sane(m)
    ensures m.state == Collect ==> |m.acc| + m.remains <= Capacity(m.place)
    ensures Gathers(m.state) && !m.place.InChunk? ==> |m.acc| <= Capacity(m.place)
    ensures m.state == GotSymlink ==> NAlign(m.hdr.nameLen) + m.hdr.bodyLen < Capacity(SymlinkBuf)
  {
  }

  /** What the action of a state takes for granted. */
  predicate Enabled(m: Machine) {
    && ChunkOk(m)
    && (m.state == GotHeader ==> |m.acc| == HEADER_SIZE)
    && (m.state == SkipIt ==> m.thisHeader <= m.nextHeader)
    && (m.state == CopyFile ==> Writing(m.events))
    && (m.state == GotSymlink ==> NAlign(m.hdr.nameLen) <= |m.acc|)
  }

  /** Every action, dispatched on the state. */
  function Action(fs: Fs, m: Machine): Act
    requires Enabled(m)
  {
    match m.state
    case Start => StartStep(m)
    case Collect => CollectStep(m)
    case GotHeader => HeaderStep(m)
    case SkipIt => SkipStep(m)
    case GotName => NameStep(fs, m)
    case CopyFile => CopyStep(m)
    case GotSymlink => SymlinkStep(m)
    case Reset => ResetStep(m)
  }
}
