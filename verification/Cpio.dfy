/**
 The newc cpio stream as init/initramfs.c understands it, one byte at a time.

 `Step` says what the next byte of the stream means, and `Feed` folds it over a byte string.
 This is the reference the chunked unpacker of module `Unpacker` is proved against. Everything the
 unpacker asks of the file system is an event; an open or a link may fail, as the oracle `Fs` says.
 */
module Cpio {
  import opened Wrappers

  type byte = b: int | 0 <= b < 256

  const PATH_MAX: nat := 4096
  const HEADER_SIZE: nat := 110
  const U32: nat := 0x1_0000_0000
  const ASCII_ZERO: byte := 48
  const MAGIC: seq<byte> := [48, 55, 48, 55, 48, 49]       // "070701"
  const MAGIC_CSUM: seq<byte> := [48, 55, 48, 55, 48, 50]  // "070702"
  const TRAILER: seq<byte> := [84, 82, 65, 73, 76, 69, 82, 33, 33, 33]  // "TRAILER!!!"

  // File types, mode >> 12.
  const S_IFIFO: nat := 1
  const S_IFCHR: nat := 2
  const S_IFDIR: nat := 4
  const S_IFBLK: nat := 6
  const S_IFREG: nat := 8
  const S_IFLNK: nat := 10
  const S_IFSOCK: nat := 12

  /** N_ALIGN: a name padded so that it ends 4-byte aligned behind a 110-byte header. */
  function NAlign(len: nat): (n: nat)
    ensures n >= 2 && n >= len && n <= len + 3
    ensures (HEADER_SIZE + n) % 4 == 0
  {
    (len + 1) / 4 * 4 + 2
  }

  function RoundUp4(n: nat): (r: nat)
    ensures n <= r < n + 4 && r % 4 == 0
  {
    (n + 3) / 4 * 4
  }

  datatype Header = Header(
    csumPresent: bool, ino: nat, mode: nat, uid: nat, gid: nat, nlink: nat, mtime: nat,
    bodyLen: nat, major: nat, minor: nat, rmajor: nat, rminor: nat, nameLen: nat, csum: nat)
  {
    function Type(): nat { mode / 0x1000 }

    /** The checksum the body must have, if the format carries one. */
    function Check(): Option<nat> { if csumPresent then Some(csum) else None }
  }

  function HexDigit(c: byte): Option<nat> {
    if 48 <= c <= 57 then Some(c - 48)
    else if 65 <= c <= 70 then Some(c - 55)
    else if 97 <= c <= 102 then Some(c - 87)
    else None
  }

  /** Reads hex digits, most significant first, up to the first other byte. */
  function HexDigits(s: seq<byte>, n: nat): nat
    decreases |s|
  {
    if s == [] || HexDigit(s[0]).None? then n
    else HexDigits(s[1..], 16 * n + HexDigit(s[0]).value)
  }

  /** simple_strtoul(s, NULL, 16) on eight bytes: an optional 0x, then hex digits. */
  function StrToUl(s: seq<byte>): nat {
    if |s| >= 2 && s[0] == ASCII_ZERO && (s[1] == 120 || s[1] == 88) then HexDigits(s[2..], 0) else HexDigits(s, 0)
  }

  function FieldAt(s: seq<byte>, i: nat): nat
    requires |s| == HEADER_SIZE && i < 13
  {
    StrToUl(s[6 + 8 * i..14 + 8 * i])
  }

  function ParsedFields(s: seq<byte>): (parsed: seq<nat>)
    requires |s| == HEADER_SIZE
    ensures |parsed| == 13
  {
    seq(13, i requires 0 <= i < 13 => FieldAt(s, i))
  }

  /** parse_header, after the magic has been checked; umode_t keeps 16 bits of the mode. */
  function ParseHeader(s: seq<byte>): Option<Header>
    requires |s| == HEADER_SIZE
  {
    if s[..6] != MAGIC && s[..6] != MAGIC_CSUM then None
    else
      var parsed := ParsedFields(s);
      Some(Header(s[..6] == MAGIC_CSUM, parsed[0], parsed[1] % 0x1_0000, parsed[2], parsed[3], parsed[4], parsed[5],
                  parsed[6], parsed[7], parsed[8], parsed[9], parsed[10], parsed[11], parsed[12]))
  }

  /** The C string at the front of s. */
  function CString(s: seq<byte>): seq<byte> {
    if s == [] || s[0] == 0 then [] else [s[0]] + CString(s[1..])
  }

  function ByteSum(s: seq<byte>): nat {
    if s == [] then 0 else ByteSum(s[..|s| - 1]) + s[|s| - 1]
  }

  datatype LinkKey = LinkKey(major: nat, minor: nat, ino: nat, fileType: nat)

  type Links = map<LinkKey, seq<byte>>

  datatype Event =
    | CleanPath(path: seq<byte>, mode: nat)
    | Link(target: seq<byte>, path: seq<byte>, linked: bool)
    | OpenFailed(path: seq<byte>)
    | File(path: seq<byte>, keep: bool, mode: nat, uid: nat, gid: nat, size: nat, mtime: nat,
           data: seq<byte>, closed: bool)
    | Dir(path: seq<byte>, mode: nat, uid: nat, gid: nat, mtime: nat)
    | Node(path: seq<byte>, mode: nat, rmajor: nat, rminor: nat, uid: nat, gid: nat, mtime: nat)
    | Symlink(path: seq<byte>, target: seq<byte>, uid: nat, gid: nat, mtime: nat)

  /**
   The world outside: which opens and links succeed, given all that was asked before; what a buffer holds when it is
   allocated; and what lies in memory behind a buffer or chunk that is read past its end.
   */
  datatype Fs = Fs(
    openOk: seq<Event> -> bool, linkOk: seq<Event> -> bool, garbage: nat -> byte, behind: seq<Event> -> seq<byte>)

  datatype Wanted = WantHeader | WantName(h: Header) | WantLink(h: Header)

  datatype Phase =
    | Gather(wanted: Wanted, acc: seq<byte>)
    | InBody(left: nat, csum: Option<nat>)
    | Skipping(left: nat)
    | Between

  /**
   Where the stream stands: `Failed` once it has met an error, which ends the unpacking, and `Bad` once it has met an entry
   that is set aside or a name without an end, behind which the stream alone does not say what happens.
   */
  datatype Stream = Bad | Failed(events: seq<Event>) | Stream(phase: Phase, pos: nat, links: Links, events: seq<Event>)

  const Initial: Stream := Stream(Gather(WantHeader, []), 0, map[], [])

  function Need(w: Wanted): (n: nat)
    ensures n > 0
  {
    match w
    case WantHeader => HEADER_SIZE
    case WantName(h) => NAlign(h.nameLen)
    case WantLink(h) => NAlign(h.nameLen) + h.bodyLen
  }

  function SkipFor(left: nat, pos: nat, links: Links, events: seq<Event>): Stream {
    Stream(if left == 0 then Between else Skipping(left), pos, links, events)
  }

  /** Skip to the 4-byte boundary behind `body` more bytes. */
  function SkipBody(body: nat, pos: nat, links: Links, events: seq<Event>): Stream {
    SkipFor(RoundUp4(pos + body) - pos, pos, links, events)
  }

  /** The name is empty or too long, the link target is too long, or something other than a file or link has a body. */
  predicate SetAside(h: Header) {
    || h.nameLen == 0 || h.nameLen > PATH_MAX
    || if h.Type() == S_IFLNK then h.bodyLen > PATH_MAX else h.Type() != S_IFREG && h.bodyLen != 0
  }

  function Enter(h: Header, pos: nat, links: Links, events: seq<Event>): Stream {
    if SetAside(h) then Bad
    else Stream(Gather(if h.Type() == S_IFLNK then WantLink(h) else WantName(h), []), pos, links, events)
  }

  /** do_header, for entries that do_header does not set aside. */
  function AfterHeader(s: seq<byte>, pos: nat, links: Links, events: seq<Event>): Stream
    requires |s| == HEADER_SIZE
  {
    var parsed := ParseHeader(s);
    if parsed.None? then Failed(events) else Enter(parsed.value, pos, links, events)
  }

  function KeyOf(h: Header): LinkKey {
    LinkKey(h.major, h.minor, h.ino, h.Type())
  }

  /** maybe_link: -1 when the link failed, 1 when it was made, 0 when there is no earlier name. */
  datatype MaybeLink = MaybeLink(result: int, links: Links, events: seq<Event>)

  function TryLink(fs: Fs, h: Header, name: seq<byte>, links: Links, events: seq<Event>): (r: MaybeLink)
    ensures -1 <= r.result <= 1
  {
    if h.nlink < 2 then MaybeLink(0, links, events)
    else if KeyOf(h) !in links then MaybeLink(0, links[KeyOf(h) := name], events)
    else
      var earlier := links[KeyOf(h)];
      var asked := events + [CleanPath(name, 0)];
      var ok := fs.linkOk(asked);
      MaybeLink(if ok then 1 else -1, links, asked + [Link(earlier, name, ok)])
  }

  predicate IsDevice(fileType: nat) {
    fileType == S_IFBLK || fileType == S_IFCHR || fileType == S_IFIFO || fileType == S_IFSOCK
  }

  function OpenedFile(h: Header, name: seq<byte>, keep: bool): Event {
    File(name, keep, h.mode, h.uid, h.gid, h.bodyLen, h.mtime, [], false)
  }

  predicate Writing(events: seq<Event>) {
    events != [] && events[|events| - 1].File?
  }

  function Closed(events: seq<Event>): (r: seq<Event>)
    requires Writing(events)
  {
    events[|events| - 1 := events[|events| - 1].(closed := true)]
  }

  predicate CsumOk(csum: Option<nat>, events: seq<Event>)
    requires Writing(events)
  {
    csum.Some? ==> ByteSum(events[|events| - 1].data) % U32 == csum.value
  }

  /** do_copy, once the whole body has been written. */
  function AfterBody(csum: Option<nat>, pos: nat, links: Links, events: seq<Event>): Stream {
    if !Writing(events) then Bad
    else if !CsumOk(csum, events) then Failed(Closed(events))
    else SkipBody(0, pos, links, Closed(events))
  }

  function EnterBody(h: Header, pos: nat, links: Links, events: seq<Event>): Stream {
    if h.bodyLen == 0 then AfterBody(h.Check(), pos, links, events)
    else Stream(InBody(h.bodyLen, h.Check()), pos, links, events)
  }

  /** What do_name leaves behind; when `isOpen`, the last event is the file whose body follows. */
  datatype Named = Named(links: Links, events: seq<Event>, isOpen: bool)

  function NameEntry(fs: Fs, h: Header, name: seq<byte>, links: Links, events: seq<Event>): (r: Named)
    ensures r.isOpen ==> Writing(r.events) && r.events[|r.events| - 1].data == []
  {
    if name == TRAILER then Named(map[], events, false)
    else
      var cleaned := events + [CleanPath(name, h.mode)];
      if h.Type() == S_IFREG then
        var ml := TryLink(fs, h, name, links, cleaned);
        if ml.result < 0 then Named(ml.links, ml.events, false)
        else if !fs.openOk(ml.events) then Named(ml.links, ml.events + [OpenFailed(name)], false)
        else Named(ml.links, ml.events + [OpenedFile(h, name, ml.result == 1)], true)
      else if h.Type() == S_IFDIR then
        Named(links, cleaned + [Dir(name, h.mode, h.uid, h.gid, h.mtime)], false)
      else if IsDevice(h.Type()) then
        var ml := TryLink(fs, h, name, links, cleaned);
        Named(ml.links,
              if ml.result == 0
              then ml.events + [Node(name, h.mode, h.rmajor, h.rminor, h.uid, h.gid, h.mtime)]
              else ml.events, false)
      else Named(links, cleaned, false)
  }

  /** do_name */
  function AfterName(fs: Fs, h: Header, s: seq<byte>, pos: nat, links: Links, events: seq<Event>): Stream {
    if 0 !in s then Bad
    else
      var r := NameEntry(fs, h, CString(s), links, events);
      if r.isOpen then EnterBody(h, pos, r.links, r.events) else SkipBody(h.bodyLen, pos, r.links, r.events)
  }

  /** do_symlink */
  function AfterLink(h: Header, s: seq<byte>, pos: nat, links: Links, events: seq<Event>): Stream
    requires |s| >= NAlign(h.nameLen)
  {
    var name := CString(s);
    SkipBody(0, pos, links,
             events + [CleanPath(name, 0), Symlink(name, CString(s[NAlign(h.nameLen)..]), h.uid, h.gid, h.mtime)])
  }

  function Finish(fs: Fs, w: Wanted, s: seq<byte>, pos: nat, links: Links, events: seq<Event>): Stream {
    if |s| != Need(w) then Bad
    else
      match w
      case WantHeader => AfterHeader(s, pos, links, events)
      case WantName(h) => AfterName(fs, h, s, pos, links, events)
      case WantLink(h) => AfterLink(h, s, pos, links, events)
  }

  /** The last event is the open file; its contents grow by s. */
  function Written(events: seq<Event>, s: seq<byte>): (r: seq<Event>)
    requires Writing(events)
    ensures Writing(r)
  {
    var last := events[|events| - 1];
    events[|events| - 1 := last.(data := last.data + s)]
  }

  function Step(fs: Fs, a: Stream, b: byte): Stream {
    match a
    case Bad => Bad
    case Failed(_) => a
    case Stream(phase, pos, links, events) =>
      match phase
      case Gather(w, acc) =>
        if |acc| + 1 < Need(w) then Stream(Gather(w, acc + [b]), pos + 1, links, events)
        else if |acc| + 1 == Need(w) then Finish(fs, w, acc + [b], pos + 1, links, events)
        else Bad
      case InBody(left, csum) =>
        if left == 0 || !Writing(events) then Bad
        else if left == 1 then AfterBody(csum, pos + 1, links, Written(events, [b]))
        else Stream(InBody(left - 1, csum), pos + 1, links, Written(events, [b]))
      case Skipping(left) => if left == 0 then Bad else SkipFor(left - 1, pos + 1, links, events)
      case Between =>
        if b == 0 then Stream(Between, pos + 1, links, events)
        else if b == ASCII_ZERO && pos % 4 == 0 then Stream(Gather(WantHeader, [b]), pos + 1, links, events)
        else Failed(events)
  }

  function Feed(fs: Fs, a: Stream, s: seq<byte>): Stream
    decreases |s|
  {
    if s == [] then a else Feed(fs, Step(fs, a, s[0]), s[1..])
  }

  lemma {:induction false} FeedBad(fs: Fs, s: seq<byte>)
    ensures Feed(fs, Bad, s) == Bad
    decreases |s|
  {
    if s != [] { FeedBad(fs, s[1..]); }
  }

  lemma {:induction false} FeedFailed(fs: Fs, events: seq<Event>, s: seq<byte>)
    ensures Feed(fs, Failed(events), s) == Failed(events)
    decreases |s|
  {
    if s != [] { FeedFailed(fs, events, s[1..]); }
  }

  lemma {:induction false} FeedConcat(fs: Fs, a: Stream, s: seq<byte>, t: seq<byte>)
    ensures Feed(fs, a, s + t) == Feed(fs, Feed(fs, a, s), t)
    decreases |s|
  {
    if s == [] {
      assert s + t == t;
    } else {
      assert (s + t)[1..] == s[1..] + t;
      FeedConcat(fs, Step(fs, a, s[0]), s[1..], t);
    }
  }

  /** Between entries, only a zero byte or an aligned '0' may come next. */
  lemma FeedJunk(fs: Fs, s: seq<byte>, pos: nat, links: Links, events: seq<Event>)
    requires s != [] && s[0] != 0 && (pos % 4 != 0 || s[0] != ASCII_ZERO)
    ensures Feed(fs, Stream(Between, pos, links, events), s) == Failed(events)
  {
    FeedFailed(fs, events, s[1..]);
  }

  /** Between entries, an aligned '0' starts a header. */
  lemma FeedStart(fs: Fs, s: seq<byte>, pos: nat, links: Links, events: seq<Event>)
    requires s != [] && s[0] == ASCII_ZERO && pos % 4 == 0
    ensures Feed(fs, Stream(Gather(WantHeader, []), pos, links, events), s) == Feed(fs, Stream(Between, pos, links, events), s)
  {
    assert [] + [s[0]] == [s[0]];
  }

  lemma FeedNothing(fs: Fs, a: Stream)
    ensures Feed(fs, a, []) == a
  {
  }

  lemma FeedFirst(fs: Fs, a: Stream, s: seq<byte>)
    requires s != []
    ensures Feed(fs, a, s) == Feed(fs, Step(fs, a, s[0]), s[1..])
  {
  }

  /** Collecting a run of bytes in one go. */
  lemma {:induction false} FeedGather(fs: Fs, w: Wanted, acc: seq<byte>, s: seq<byte>, pos: nat, links: Links, events: seq<Event>)
    requires |acc| < Need(w) && |acc| + |s| <= Need(w)
    ensures Feed(fs, Stream(Gather(w, acc), pos, links, events), s)
         == if |acc| + |s| < Need(w) then Stream(Gather(w, acc + s), pos + |s|, links, events)
            else Finish(fs, w, acc + s, pos + |s|, links, events)
    decreases |s|
  {
    hide Feed, Finish;
    var a := Stream(Gather(w, acc), pos, links, events);
    if s == [] {
      FeedNothing(fs, a);
      assert acc + s == acc;
    } else {
      FeedFirst(fs, a, s);
      assert (acc + [s[0]]) + s[1..] == acc + s;
      if |s| == 1 {
        assert s[1..] == [] && acc + [s[0]] == acc + s;
        FeedNothing(fs, Step(fs, a, s[0]));
      } else {
        FeedGather(fs, w, acc + [s[0]], s[1..], pos + 1, links, events);
      }
    }
  }

  lemma {:induction false} FeedBody(fs: Fs, left: nat, csum: Option<nat>, s: seq<byte>, pos: nat, links: Links, events: seq<Event>)
    requires 0 < |s| <= left && Writing(events)
    ensures Feed(fs, Stream(InBody(left, csum), pos, links, events), s)
         == if |s| < left then Stream(InBody(left - |s|, csum), pos + |s|, links, Written(events, s))
            else AfterBody(csum, pos + |s|, links, Written(events, s))
    decreases |s|
  {
    var last := events[|events| - 1];
    if |s| == 1 {
      assert s == [s[0]] && s[1..] == [];
    } else {
      assert (last.data + [s[0]]) + s[1..] == last.data + s;
      assert Written(Written(events, [s[0]]), s[1..]) == Written(events, s);
      FeedBody(fs, left - 1, csum, s[1..], pos + 1, links, Written(events, [s[0]]));
    }
  }

  lemma {:induction false} FeedSkip(fs: Fs, left: nat, s: seq<byte>, pos: nat, links: Links, events: seq<Event>)
    requires |s| <= left
    ensures Feed(fs, SkipFor(left, pos, links, events), s) == SkipFor(left - |s|, pos + |s|, links, events)
    decreases |s|
  {
    if s != [] {
      FeedSkip(fs, left - 1, s[1..], pos + 1, links, events);
    }
  }

  lemma {:induction false} FeedZeros(fs: Fs, s: seq<byte>, pos: nat, links: Links, events: seq<Event>)
    requires forall i | 0 <= i < |s| :: s[i] == 0
    ensures Feed(fs, Stream(Between, pos, links, events), s) == Stream(Between, pos + |s|, links, events)
    decreases |s|
  {
    if s != [] {
      FeedZeros(fs, s[1..], pos + 1, links, events);
    }
  }

  /** The u32 sum of xwrite, byte after byte. */
  function Csum(sum: nat, s: seq<byte>): nat {
    if s == [] then sum else (Csum(sum, s[..|s| - 1]) + s[|s| - 1]) % U32
  }

  lemma {:induction false} CsumConcat(sum: nat, s: seq<byte>, t: seq<byte>)
    ensures Csum(sum, s + t) == Csum(Csum(sum, s), t)
    decreases |t|
  {
    if t == [] {
      assert s + t == s;
    } else {
      assert (s + t)[..|s + t| - 1] == s + t[..|t| - 1];
      CsumConcat(sum, s, t[..|t| - 1]);
    }
  }

  lemma AddMod(x: nat, y: nat)
    ensures (x % U32 + y) % U32 == (x + y) % U32
  {
    var q := x / U32;
    assert x == q * U32 + x % U32;
    assert x + y == q * U32 + (x % U32 + y);
  }

  /** It is the sum of the bytes mod 2^32. */
  lemma {:induction false} CsumIsByteSum(s: seq<byte>)
    ensures Csum(0, s) == ByteSum(s) % U32
    decreases |s|
  {
    if s != [] {
      CsumIsByteSum(s[..|s| - 1]);
      AddMod(ByteSum(s[..|s| - 1]), s[|s| - 1]);
    }
  }
}
