/**
 Archives and what they mean. Reading the encoding of any list of well-formed entries, under any
 division into chunks, performs exactly the events that the list describes.
 */
module CpioArchive {
  import opened Wrappers
  import opened Cpio

  datatype Entry = Entry(h: Header, name: seq<byte>, body: seq<byte>)

  predicate NulFree(s: seq<byte>) {
    forall i | 0 <= i < |s| :: s[i] != 0
  }

  predicate FieldsFit(h: Header) {
    && h.ino < U32 && h.mode < 0x1_0000 && h.uid < U32 && h.gid < U32 && h.nlink < U32 && h.mtime < U32
    && h.bodyLen < U32 && h.major < U32 && h.minor < U32 && h.rmajor < U32 && h.rminor < U32
    && h.nameLen < U32 && h.csum < U32
  }

  /** Well formed but for its checksum. */
  predicate Framed(e: Entry) {
    && FieldsFit(e.h) && NulFree(e.name)
    && e.h.nameLen == |e.name| + 1 <= PATH_MAX
    && e.h.bodyLen == |e.body|
    && (e.h.Type() == S_IFLNK ==> |e.body| <= PATH_MAX)
    && (e.h.Type() == S_IFLNK || e.h.Type() == S_IFREG || e.body == [])
  }

  predicate WellFormed(e: Entry) {
    Framed(e) && (e.h.csumPresent ==> e.h.csum == ByteSum(e.body) % U32)
  }

  // ---------- encoding ----------

  function Digit(d: nat): byte
    requires d < 16
  {
    if d < 10 then 48 + d else 87 + d
  }

  function Hex(n: nat, digits: nat): (s: seq<byte>)
    ensures |s| == digits
  {
    if digits == 0 then [] else Hex(n / 16, digits - 1) + [Digit(n % 16)]
  }

  function Zeros(n: nat): (s: seq<byte>)
    ensures |s| == n && forall i | 0 <= i < n :: s[i] == 0
  {
    seq(n, i => 0)
  }

  function Fields(h: Header): seq<nat> {
    [h.ino, h.mode, h.uid, h.gid, h.nlink, h.mtime, h.bodyLen, h.major, h.minor, h.rmajor, h.rminor, h.nameLen, h.csum]
  }

  function HexAll(fields: seq<nat>): (s: seq<byte>)
    ensures |s| == 8 * |fields|
  {
    if fields == [] then [] else Hex(fields[0], 8) + HexAll(fields[1..])
  }

  function EncodeHeader(h: Header): (s: seq<byte>)
    ensures |s| == HEADER_SIZE
  {
    (if h.csumPresent then MAGIC_CSUM else MAGIC) + HexAll(Fields(h))
  }

  function EncodeName(e: Entry): (s: seq<byte>)
    requires e.h.nameLen == |e.name| + 1
    ensures |s| == NAlign(e.h.nameLen)
  {
    e.name + Zeros(NAlign(e.h.nameLen) - |e.name|)
  }

  function Encode(e: Entry): (s: seq<byte>)
    requires Framed(e)
    ensures |s| % 4 == 0
  {
    EncodeHeader(e.h) + EncodeName(e) + e.body + Zeros(RoundUp4(|e.body|) - |e.body|)
  }

  predicate AllWellFormed(entries: seq<Entry>) {
    forall i | 0 <= i < |entries| :: WellFormed(entries[i])
  }

  function EncodeAll(entries: seq<Entry>): (s: seq<byte>)
    requires AllWellFormed(entries)
  {
    if entries == [] then [] else EncodeAll(entries[..|entries| - 1]) + Encode(entries[|entries| - 1])
  }

  // ---------- meaning ----------

  datatype World = World(links: Links, events: seq<Event>)

  function Perform(fs: Fs, e: Entry, w: World): World {
    if e.h.Type() == S_IFLNK then
      World(w.links, w.events + [CleanPath(e.name, 0),
                                 Symlink(e.name, CString(e.body), e.h.uid, e.h.gid, e.h.mtime)])
    else
      var r := NameEntry(fs, e.h, e.name, w.links, w.events);
      World(r.links, if r.isOpen then Closed(Written(r.events, e.body)) else r.events)
  }

  function PerformAll(fs: Fs, entries: seq<Entry>): World {
    if entries == [] then World(map[], [])
    else Perform(fs, entries[|entries| - 1], PerformAll(fs, entries[..|entries| - 1]))
  }

  // ---------- the header round trip ----------

  function Pow16(k: nat): nat {
    if k == 0 then 1 else 16 * Pow16(k - 1)
  }

  predicate AllHex(s: seq<byte>) {
    forall i | 0 <= i < |s| :: HexDigit(s[i]).Some?
  }

  lemma {:induction false} HexDigitsSnoc(s: seq<byte>, d: byte, n: nat)
    requires AllHex(s) && HexDigit(d).Some?
    ensures HexDigits(s + [d], n) == 16 * HexDigits(s, n) + HexDigit(d).value
    decreases |s|
  {
    if s == [] {
      assert [d][1..] == [];
    } else {
      assert (s + [d])[1..] == s[1..] + [d];
      HexDigitsSnoc(s[1..], d, 16 * n + HexDigit(s[0]).value);
    }
  }

  lemma {:induction false} HexRoundTrip(n: nat, digits: nat)
    requires n < Pow16(digits)
    ensures AllHex(Hex(n, digits)) && HexDigits(Hex(n, digits), 0) == n
    decreases digits
  {
    if digits > 0 {
      HexRoundTrip(n / 16, digits - 1);
      HexDigitsSnoc(Hex(n / 16, digits - 1), Digit(n % 16), 0);
    }
  }

  lemma FieldRoundTrip(n: nat)
    requires n < U32
    ensures StrToUl(Hex(n, 8)) == n
  {
    assert Pow16(8) == U32 by {
      assert Pow16(4) == 65536;
    }
    HexRoundTrip(n, 8);
  }

  lemma {:induction false} HexAllAt(fields: seq<nat>, i: nat)
    requires i < |fields|
    ensures HexAll(fields)[8 * i..8 * i + 8] == Hex(fields[i], 8)
    decreases |fields|
  {
    if i > 0 {
      HexAllAt(fields[1..], i - 1);
      assert HexAll(fields)[8 * i..8 * i + 8] == HexAll(fields[1..])[8 * (i - 1)..8 * (i - 1) + 8];
    }
  }

  lemma FieldOfHeader(h: Header, i: nat)
    requires i < 13 && Fields(h)[i] < U32
    ensures FieldAt(EncodeHeader(h), i) == Fields(h)[i]
  {
    var s := EncodeHeader(h);
    HexAllAt(Fields(h), i);
    assert s[6 + 8 * i..14 + 8 * i] == HexAll(Fields(h))[8 * i..8 * i + 8];
    FieldRoundTrip(Fields(h)[i]);
  }

  lemma FieldsRoundTrip(h: Header)
    requires FieldsFit(h)
    ensures ParsedFields(EncodeHeader(h)) == Fields(h)
  {
    forall i | 0 <= i < 13
      ensures FieldAt(EncodeHeader(h), i) == Fields(h)[i]
    {
      FieldOfHeader(h, i);
    }
  }

  lemma MagicOf(h: Header)
    ensures (EncodeHeader(h)[..6] == MAGIC_CSUM) == h.csumPresent
    ensures h.csumPresent || EncodeHeader(h)[..6] == MAGIC
  {
    assert EncodeHeader(h)[..6] == if h.csumPresent then MAGIC_CSUM else MAGIC;
    assert MAGIC[5] != MAGIC_CSUM[5];
  }

  lemma HeaderFromFields(s: seq<byte>, h: Header)
    requires |s| == HEADER_SIZE && FieldsFit(h) && ParsedFields(s) == Fields(h)
    requires (s[..6] == MAGIC_CSUM) == h.csumPresent && (h.csumPresent || s[..6] == MAGIC)
    ensures ParseHeader(s) == Some(h)
  {
  }

  /** parse_header undoes the encoding of every header whose fields fit. */
  lemma HeaderRoundTrip(h: Header)
    requires FieldsFit(h)
    ensures ParseHeader(EncodeHeader(h)) == Some(h)
  {
    FieldsRoundTrip(h);
    MagicOf(h);
    HeaderFromFields(EncodeHeader(h), h);
  }

  // ---------- reading an entry ----------

  lemma {:induction false} CStringOf(s: seq<byte>, t: seq<byte>)
    requires NulFree(s) && (t == [] || t[0] == 0)
    ensures CString(s + t) == s
    decreases |s|
  {
    if s == [] {
      assert s + t == t;
    } else {
      assert (s + t)[1..] == s[1..] + t;
      CStringOf(s[1..], t);
    }
  }

  lemma NameRoundTrip(e: Entry, s: seq<byte>)
    requires Framed(e)
    ensures 0 in EncodeName(e) && CString(EncodeName(e) + s) == e.name
  {
    var zeros := Zeros(NAlign(e.h.nameLen) - |e.name|);
    assert EncodeName(e) + s == e.name + (zeros + s);
    CStringOf(e.name, zeros + s);
  }

  lemma PaddingOf(pos: nat, n: nat)
    requires pos % 4 == 0
    ensures RoundUp4(pos + n) == pos + RoundUp4(n)
  {
  }

  lemma ReadHeader(fs: Fs, e: Entry, pos: nat, w: World)
    requires Framed(e)
    ensures Feed(fs, Stream(Gather(WantHeader, []), pos, w.links, w.events), EncodeHeader(e.h))
         == Stream(Gather(if e.h.Type() == S_IFLNK then WantLink(e.h) else WantName(e.h), []),
                   pos + HEADER_SIZE, w.links, w.events)
  {
    var s := EncodeHeader(e.h);
    FeedGather(fs, WantHeader, [], s, pos, w.links, w.events);
    assert [] + s == s;
    HeaderRoundTrip(e.h);
    assert Finish(fs, WantHeader, s, pos + HEADER_SIZE, w.links, w.events) == Enter(e.h, pos + HEADER_SIZE, w.links, w.events);
  }

  /** Where the stream stands once the body of an entry has been read. */
  function Performed(fs: Fs, e: Entry, end: nat, w: World): Stream {
    var after := Perform(fs, e, w);
    SkipBody(0, end, after.links, after.events)
  }

  lemma FinishLink(fs: Fs, e: Entry, end: nat, w: World)
    requires WellFormed(e) && e.h.Type() == S_IFLNK
    ensures Finish(fs, WantLink(e.h), EncodeName(e) + e.body, end, w.links, w.events) == Performed(fs, e, end, w)
  {
    assert Finish(fs, WantLink(e.h), EncodeName(e) + e.body, end, w.links, w.events)
        == AfterLink(e.h, EncodeName(e) + e.body, end, w.links, w.events);
    NameRoundTrip(e, e.body);
    assert (EncodeName(e) + e.body)[NAlign(e.h.nameLen)..] == e.body;
  }

  lemma ReadLinkEntry(fs: Fs, e: Entry, pos: nat, w: World)
    requires WellFormed(e) && e.h.Type() == S_IFLNK
    ensures Feed(fs, Stream(Gather(WantLink(e.h), []), pos, w.links, w.events), EncodeName(e) + e.body)
         == Performed(fs, e, pos + NAlign(e.h.nameLen) + |e.body|, w)
  {
    hide Feed, Finish, Encode;
    var s := EncodeName(e) + e.body;
    FeedGather(fs, WantLink(e.h), [], s, pos, w.links, w.events);
    assert [] + s == s;
    FinishLink(fs, e, pos + |s|, w);
  }

  /** Where the stream stands once the name of a file and its body have been read, whatever its checksum. */
  function BodyRead(e: Entry, end: nat, n: Named): Stream
    requires n.isOpen ==> Writing(n.events)
  {
    if n.isOpen then AfterBody(e.h.Check(), end, n.links, Written(n.events, e.body)) else SkipBody(0, end, n.links, n.events)
  }

  lemma ReadBodyOf(fs: Fs, e: Entry, pos: nat, n: Named)
    requires Framed(e)
    requires n.isOpen ==> Writing(n.events) && n.events[|n.events| - 1].data == []
    ensures Feed(fs, if n.isOpen then EnterBody(e.h, pos, n.links, n.events)
                   else SkipBody(e.h.bodyLen, pos, n.links, n.events), e.body)
         == BodyRead(e, pos + |e.body|, n)
  {
    if !n.isOpen {
      FeedSkip(fs, RoundUp4(pos + |e.body|) - pos, e.body, pos, n.links, n.events);
    } else if e.body == [] {
      assert [] + e.body == [];
      assert Written(n.events, e.body) == n.events;
      FeedNothing(fs, EnterBody(e.h, pos, n.links, n.events));
    } else {
      FeedBody(fs, |e.body|, e.h.Check(), e.body, pos, n.links, n.events);
    }
  }

  lemma ReadNamed(fs: Fs, e: Entry, pos: nat, w: World)
    requires Framed(e) && e.h.Type() != S_IFLNK
    ensures Feed(fs, Stream(Gather(WantName(e.h), []), pos, w.links, w.events), EncodeName(e) + e.body)
         == BodyRead(e, pos + NAlign(e.h.nameLen) + |e.body|, NameEntry(fs, e.h, e.name, w.links, w.events))
  {
    hide Feed;
    var name := EncodeName(e);
    FeedConcat(fs, Stream(Gather(WantName(e.h), []), pos, w.links, w.events), name, e.body);
    FeedGather(fs, WantName(e.h), [], name, pos, w.links, w.events);
    assert [] + name == name;
    NameRoundTrip(e, []);
    assert name + [] == name;
    ReadBodyOf(fs, e, pos + |name|, NameEntry(fs, e.h, e.name, w.links, w.events));
  }

  lemma ReadNamedEntry(fs: Fs, e: Entry, pos: nat, w: World)
    requires WellFormed(e) && e.h.Type() != S_IFLNK
    ensures Feed(fs, Stream(Gather(WantName(e.h), []), pos, w.links, w.events), EncodeName(e) + e.body)
         == Performed(fs, e, pos + NAlign(e.h.nameLen) + |e.body|, w)
  {
    hide Feed;
    ReadNamed(fs, e, pos, w);
    assert [] + e.body == e.body;
  }

  lemma ReadContent(fs: Fs, e: Entry, pos: nat, w: World)
    requires WellFormed(e)
    ensures Feed(fs, Stream(Gather(if e.h.Type() == S_IFLNK then WantLink(e.h) else WantName(e.h), []), pos, w.links, w.events),
                   EncodeName(e) + e.body)
         == Performed(fs, e, pos + NAlign(e.h.nameLen) + |e.body|, w)
  {
    if e.h.Type() == S_IFLNK { ReadLinkEntry(fs, e, pos, w); } else { ReadNamedEntry(fs, e, pos, w); }
  }

  lemma ReadPadding(fs: Fs, e: Entry, end: nat, w: World)
    requires WellFormed(e) && end >= |e.body| && (end - |e.body|) % 4 == 0
    ensures Feed(fs, Performed(fs, e, end, w), Zeros(RoundUp4(|e.body|) - |e.body|))
         == Stream(Between, end + RoundUp4(|e.body|) - |e.body|, Perform(fs, e, w).links, Perform(fs, e, w).events)
  {
    var after := Perform(fs, e, w);
    PaddingOf(end - |e.body|, |e.body|);
    FeedSkip(fs, RoundUp4(end) - end, Zeros(RoundUp4(|e.body|) - |e.body|), end, after.links, after.events);
  }

  lemma EntryParts(e: Entry)
    requires Framed(e)
    ensures var content, pad := EncodeName(e) + e.body, Zeros(RoundUp4(|e.body|) - |e.body|);
            Encode(e) == EncodeHeader(e.h) + (content + pad) && |Encode(e)| == HEADER_SIZE + |content| + |pad|
  {
  }

  /** Reading one encoded entry, from a boundary between entries, performs it. */
  lemma ReadEntry(fs: Fs, e: Entry, pos: nat, w: World)
    requires WellFormed(e) && pos % 4 == 0
    ensures Feed(fs, Stream(Gather(WantHeader, []), pos, w.links, w.events), Encode(e))
         == Stream(Between, pos + |Encode(e)|, Perform(fs, e, w).links, Perform(fs, e, w).events)
  {
    var a := Stream(Gather(WantHeader, []), pos, w.links, w.events);
    hide Feed, Perform, Encode, EncodeHeader, EncodeName, Zeros;
    var content, pad := EncodeName(e) + e.body, Zeros(RoundUp4(|e.body|) - |e.body|);
    EntryParts(e);
    hide RoundUp4, WellFormed;
    FeedConcat(fs, a, EncodeHeader(e.h), content + pad);
    ReadHeader(fs, e, pos, w);
    FeedConcat(fs, Feed(fs, a, EncodeHeader(e.h)), content, pad);
    ReadContent(fs, e, pos + HEADER_SIZE, w);
    ReadPadding(fs, e, pos + HEADER_SIZE + |content|, w);
  }

  lemma EntryStartsWithZero(e: Entry)
    requires Framed(e)
    ensures Encode(e) != [] && Encode(e)[0] == ASCII_ZERO
  {
    assert Encode(e)[0] == EncodeHeader(e.h)[0];
  }

  function After(fs: Fs, entries: seq<Entry>): Stream
    requires AllWellFormed(entries)
  {
    var w := PerformAll(fs, entries);
    if entries == [] then Initial else Stream(Between, |EncodeAll(entries)|, w.links, w.events)
  }

  lemma ReadNext(fs: Fs, init: seq<Entry>, last: Entry)
    requires AllWellFormed(init) && WellFormed(last) && |EncodeAll(init)| % 4 == 0
    ensures var w := Perform(fs, last, PerformAll(fs, init));
            Feed(fs, After(fs, init), Encode(last)) == Stream(Between, |EncodeAll(init)| + |Encode(last)|, w.links, w.events)
  {
    var pos, w := |EncodeAll(init)|, PerformAll(fs, init);
    ReadEntry(fs, last, pos, w);
    if init != [] {
      EntryStartsWithZero(last);
      FeedStart(fs, Encode(last), pos, w.links, w.events);
    }
  }

  lemma AlignedSum(a: nat, b: nat)
    requires a % 4 == 0 && b % 4 == 0
    ensures (a + b) % 4 == 0
  {
  }

  lemma {:induction false} ArchiveAligned(entries: seq<Entry>)
    requires AllWellFormed(entries)
    ensures |EncodeAll(entries)| % 4 == 0
    decreases |entries|
  {
    if entries != [] {
      hide Encode, WellFormed;
      var init, last := entries[..|entries| - 1], entries[|entries| - 1];
      ArchiveAligned(init);
      AlignedSum(|EncodeAll(init)|, |Encode(last)|);
    }
  }

  /** Every well-formed archive is read without complaint, and does what its entries say. */
  lemma {:induction false} FeedArchive(fs: Fs, entries: seq<Entry>)
    requires AllWellFormed(entries)
    ensures Feed(fs, Initial, EncodeAll(entries)) == After(fs, entries)
    decreases |entries|
  {
    if entries == [] {
      FeedNothing(fs, Initial);
    } else {
      var init, last := entries[..|entries| - 1], entries[|entries| - 1];
      FeedArchive(fs, init);
      ArchiveAligned(init);
      FeedConcat(fs, Initial, EncodeAll(init), Encode(last));
      ReadNext(fs, init, last);
    }
  }

  lemma ArchiveMeans(fs: Fs, entries: seq<Entry>)
    requires AllWellFormed(entries)
    ensures var whole := Feed(fs, Initial, EncodeAll(entries));
            whole.Stream? && whole.events == PerformAll(fs, entries).events && whole.pos == |EncodeAll(entries)|
  {
    hide Feed;
    FeedArchive(fs, entries);
  }

  // ---------- the checksum ----------

  lemma PadBody(fs: Fs, e: Entry, end: nat, n: Named)
    requires end >= |e.body| && (end - |e.body|) % 4 == 0
    requires n.isOpen ==> Writing(n.events) && n.events[|n.events| - 1].data == []
    ensures var s := Feed(fs, BodyRead(e, end, n), Zeros(RoundUp4(|e.body|) - |e.body|));
            && s != Bad
            && (s.Failed? <==> n.isOpen && e.h.csumPresent && e.h.csum != ByteSum(e.body) % U32)
            && s.events == if n.isOpen then Closed(Written(n.events, e.body)) else n.events
  {
    hide Feed, Zeros, RoundUp4, ByteSum;
    var pad := Zeros(RoundUp4(|e.body|) - |e.body|);
    assert [] + e.body == e.body;
    var events := if n.isOpen then Closed(Written(n.events, e.body)) else n.events;
    PaddingOf(end - |e.body|, |e.body|);
    FeedSkip(fs, RoundUp4(end) - end, pad, end, n.links, events);
    FeedFailed(fs, events, pad);
  }

  lemma ReadSummed(fs: Fs, e: Entry, pos: nat, w: World)
    requires Framed(e) && e.h.Type() == S_IFREG && pos % 4 == 0
    ensures var n := NameEntry(fs, e.h, e.name, w.links, w.events);
            var s := Feed(fs, Stream(Gather(WantHeader, []), pos, w.links, w.events), Encode(e));
            && s != Bad
            && (s.Failed? <==> n.isOpen && e.h.csumPresent && e.h.csum != ByteSum(e.body) % U32)
            && s.events == if n.isOpen then Closed(Written(n.events, e.body)) else n.events
  {
    var a := Stream(Gather(WantHeader, []), pos, w.links, w.events);
    hide Feed, NameEntry, Encode, EncodeHeader, EncodeName, Zeros, BodyRead, ByteSum, Written, Closed, FieldsFit, NulFree;
    var content, pad := EncodeName(e) + e.body, Zeros(RoundUp4(|e.body|) - |e.body|);
    EntryParts(e);
    hide RoundUp4, Framed;
    FeedConcat(fs, a, EncodeHeader(e.h), content + pad);
    ReadHeader(fs, e, pos, w);
    FeedConcat(fs, Feed(fs, a, EncodeHeader(e.h)), content, pad);
    ReadNamed(fs, e, pos + HEADER_SIZE, w);
    PadBody(fs, e, pos + HEADER_SIZE + |content|, NameEntry(fs, e.h, e.name, w.links, w.events));
  }

  lemma NameEntryLast(fs: Fs, h: Header, name: seq<byte>, w: World)
    ensures var n := NameEntry(fs, h, name, w.links, w.events);
            n.isOpen <==> |n.events| > |w.events| && n.events[|n.events| - 1].File?
  {
  }

  /**
   Behind any archive, an entry for a file whose checksum may be wrong: the reader fails exactly if the format carries a
   checksum, the file was opened, and the sum of its bytes modulo 2^32 is another. All of the body was written then.
   */
  lemma ChecksumExactly(fs: Fs, entries: seq<Entry>, e: Entry)
    requires AllWellFormed(entries) && Framed(e) && e.h.mode / 0x1000 == 8
    ensures var before, s := PerformAll(fs, entries).events, Feed(fs, Initial, EncodeAll(entries) + Encode(e));
            && s != Bad
            && (s.Failed? <==> && e.h.csumPresent && e.h.csum != ByteSum(e.body) % 0x1_0000_0000
                               && |s.events| > |before| && s.events[|s.events| - 1].File?)
            && (s.Failed? ==> s.events[|s.events| - 1].data == e.body && s.events[|s.events| - 1].closed)
  {
    hide Feed, NameEntry, Encode;
    var pos, w := |EncodeAll(entries)|, PerformAll(fs, entries);
    FeedArchive(fs, entries);
    ArchiveAligned(entries);
    FeedConcat(fs, Initial, EncodeAll(entries), Encode(e));
    EntryStartsWithZero(e);
    FeedStart(fs, Encode(e), pos, w.links, w.events);
    ReadSummed(fs, e, pos, w);
    assert [] + e.body == e.body;
    NameEntryLast(fs, e.h, e.name, w);
  }
}
