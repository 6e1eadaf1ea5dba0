/**
 What an archive leaves behind, told from the fields of its entries alone: which calls to the file system each kind of entry
 leads to, and which earlier name a hard link goes to.
 */
module CpioMeaning {
  import opened Wrappers
  import opened Cpio
  import opened CpioArchive

  predicate IsLink(e: Entry) {
    e.h.mode / 4096 == 10
  }

  predicate IsFile(e: Entry) {
    e.h.mode / 4096 == 8
  }

  predicate IsDir(e: Entry) {
    e.h.mode / 4096 == 4
  }

  /** A fifo, a character or block device, or a socket. */
  predicate IsNode(e: Entry) {
    e.h.mode / 4096 in {1, 2, 6, 12}
  }

  /** The name is "TRAILER!!!". */
  predicate IsTrailer(e: Entry) {
    !IsLink(e) && e.name == [84, 82, 65, 73, 76, 69, 82, 33, 33, 33]
  }

  /** The name is kept for later links. */
  predicate Remembered(e: Entry) {
    !IsTrailer(e) && e.h.nlink >= 2 && (IsFile(e) || IsNode(e))
  }

  predicate SameFile(a: Entry, b: Entry) {
    a.h.major == b.h.major && a.h.minor == b.h.minor && a.h.ino == b.h.ino && a.h.mode / 4096 == b.h.mode / 4096
  }

  /** Entry j is the first since the last trailer that is remembered for the file of e. */
  ghost predicate FirstName(entries: seq<Entry>, e: Entry, j: nat) {
    && j < |entries| && Remembered(entries[j]) && SameFile(entries[j], e)
    && (forall i | j < i < |entries| :: !IsTrailer(entries[i]))
    && (forall i | 0 <= i < j && Remembered(entries[i]) && SameFile(entries[i], e) :: exists t | i < t < j :: IsTrailer(entries[t]))
  }

  /** The name a link to the file of e goes to. */
  function Earlier(entries: seq<Entry>, e: Entry): Option<seq<byte>> {
    if entries == [] then None
    else
      var init, last := entries[..|entries| - 1], entries[|entries| - 1];
      if IsTrailer(last) then None
      else if Earlier(init, e).Some? then Earlier(init, e)
      else if Remembered(last) && SameFile(last, e) then Some(last.name)
      else None
  }

  /** A trailer forgets all names before it. */
  lemma {:induction false} TrailerForgets(a: seq<Entry>, t: Entry, b: seq<Entry>, e: Entry)
    requires IsTrailer(t)
    ensures Earlier(a + [t] + b, e) == Earlier(b, e)
    decreases |b|
  {
    var all := a + [t] + b;
    if b == [] {
      assert all == a + [t];
    } else {
      var init := b[..|b| - 1];
      TrailerForgets(a, t, init, e);
      assert all[..|all| - 1] == a + [t] + init;
    }
  }

  lemma NoneSince(entries: seq<Entry>, e: Entry, i: nat)
    requires i < |entries| && Remembered(entries[i]) && SameFile(entries[i], e) && Earlier(entries, e).None?
    ensures exists t | i < t < |entries| :: IsTrailer(entries[t])
    decreases |entries|
  {
    var init, last := entries[..|entries| - 1], entries[|entries| - 1];
    if IsTrailer(last) {
      assert i < |entries| - 1;
    } else if i < |entries| - 1 {
      NoneSince(init, e, i);
      var t :| i < t < |init| && IsTrailer(init[t]);
      assert IsTrailer(entries[t]);
    }
  }

  lemma FirstStays(init: seq<Entry>, last: Entry, e: Entry, j: nat)
    requires FirstName(init, e, j) && !IsTrailer(last)
    ensures FirstName(init + [last], e, j)
  {
    var entries := init + [last];
    forall i | 0 <= i < j && Remembered(entries[i]) && SameFile(entries[i], e)
      ensures exists t | i < t < j :: IsTrailer(entries[t])
    {
      assert Remembered(init[i]) && SameFile(init[i], e);
      var t :| i < t < j && IsTrailer(init[t]);
      assert IsTrailer(entries[t]);
    }
  }

  /** The name is that of the first such entry since the last trailer, if there is one. */
  lemma {:induction false} EarlierIs(entries: seq<Entry>, e: Entry)
    ensures Earlier(entries, e).None? ==> forall j: nat :: !FirstName(entries, e, j)
    ensures Earlier(entries, e).Some? ==> exists j: nat :: FirstName(entries, e, j) && Earlier(entries, e) == Some(entries[j].name)
    decreases |entries|
  {
    if entries != [] {
      var init, last := entries[..|entries| - 1], entries[|entries| - 1];
      EarlierIs(init, e);
      if Earlier(entries, e).None? {
        forall j: nat ensures !FirstName(entries, e, j) {
          if FirstName(entries, e, j) {
            NoneSince(entries, e, j);
            assert false;
          }
        }
      } else if Earlier(init, e).Some? {
        var j: nat :| FirstName(init, e, j) && Earlier(init, e) == Some(init[j].name);
        FirstStays(init, last, e, j);
        assert init + [last] == entries;
      } else {
        var n := |entries| - 1;
        forall i | 0 <= i < n && Remembered(entries[i]) && SameFile(entries[i], e)
          ensures exists t | i < t < n :: IsTrailer(entries[t])
        {
          NoneSince(init, e, i);
          var t :| i < t < |init| && IsTrailer(init[t]);
          assert IsTrailer(entries[t]);
        }
        assert FirstName(entries, e, n);
      }
    }
  }

  /**
   The calls that do_name makes behind the calls `before`, for a header, the name it reads and the name it links to, if any;
   `data` and `closed` are what has become of an open file.
   */
  ghost predicate Names(fs: Fs, h: Header, name: seq<byte>, link: Option<seq<byte>>, data: seq<byte>, closed: bool,
                        before: seq<Event>, after: seq<Event>) {
    var kind, first := h.mode / 4096, before + [CleanPath(name, h.mode)];
    var linked := fs.linkOk(first + [CleanPath(name, 0)]);
    var tried := if link.Some? then first + [CleanPath(name, 0), Link(link.value, name, linked)] else first;
    if name == [84, 82, 65, 73, 76, 69, 82, 33, 33, 33] then after == before
    else if kind == 8 then
      if link.Some? && !linked then after == tried
      else if !fs.openOk(tried) then after == tried + [OpenFailed(name)]
      else after == tried + [File(name, link.Some?, h.mode, h.uid, h.gid, h.bodyLen, h.mtime, data, closed)]
    else if kind == 4 then after == first + [Dir(name, h.mode, h.uid, h.gid, h.mtime)]
    else if kind in {1, 2, 6, 12} then
      if link.Some? then after == tried else after == first + [Node(name, h.mode, h.rmajor, h.rminor, h.uid, h.gid, h.mtime)]
    else after == first
  }

  /** The calls that entry e leads to behind the calls `before`, when the entries before it are `earlier`. */
  ghost predicate Leaves(fs: Fs, earlier: seq<Entry>, e: Entry, before: seq<Event>, after: seq<Event>) {
    if IsLink(e)
    then after == before + [CleanPath(e.name, 0), Symlink(e.name, CString(e.body), e.h.uid, e.h.gid, e.h.mtime)]
    else Names(fs, e.h, e.name, if e.h.nlink >= 2 then Earlier(earlier, e) else None, e.body, true, before, after)
  }

  lemma KeyIsFile(a: Entry, b: Entry)
    ensures KeyOf(a.h) == KeyOf(b.h) <==> SameFile(a, b)
  {
  }

  /** The link table holds the names that the entries are to be linked to. */
  lemma {:induction false} LinksAre(fs: Fs, entries: seq<Entry>, e: Entry)
    ensures var links := PerformAll(fs, entries).links;
            && (KeyOf(e.h) in links <==> Earlier(entries, e).Some?)
            && (KeyOf(e.h) in links ==> links[KeyOf(e.h)] == Earlier(entries, e).value)
    decreases |entries|
  {
    if entries != [] {
      var init, last := entries[..|entries| - 1], entries[|entries| - 1];
      LinksAre(fs, init, e);
      LinksAre(fs, init, last);
      KeyIsFile(e, last);
    }
  }

  lemma FileClosed(before: seq<Event>, f: Event, body: seq<byte>)
    requires f.File? && f.data == []
    ensures Closed(Written(before + [f], body)) == before + [f.(data := body, closed := true)]
  {
    assert [] + body == body;
  }

  /** The link table tells which earlier name an entry has. */
  predicate Tells(links: Links, entries: seq<Entry>, e: Entry) {
    && (KeyOf(e.h) in links <==> Earlier(entries, e).Some?)
    && (KeyOf(e.h) in links ==> links[KeyOf(e.h)] == Earlier(entries, e).value)
  }

  /** The name that the table has for the file of h, if it may have another. */
  function LinkedTo(h: Header, links: Links): Option<seq<byte>> {
    var key := LinkKey(h.major, h.minor, h.ino, h.mode / 4096);
    if h.nlink >= 2 && key in links then Some(links[key]) else None
  }

  lemma LinkTried(fs: Fs, h: Header, name: seq<byte>, links: Links, first: seq<Event>)
    ensures var r, link := TryLink(fs, h, name, links, first), LinkedTo(h, links);
            var linked := fs.linkOk(first + [CleanPath(name, 0)]);
            if link.None? then r.result == 0 && r.events == first
            else && r.result == (if linked then 1 else -1)
                 && r.events == first + [CleanPath(name, 0), Link(link.value, name, linked)]
  {
    var key := KeyOf(h);
    if key in links {
      var l := Link(links[key], name, fs.linkOk(first + [CleanPath(name, 0)]));
      assert first + [CleanPath(name, 0)] + [l] == first + [CleanPath(name, 0), l];
    }
  }

  /** do_name, whatever name it reads: its calls, and a body to follow exactly behind an open file. */
  lemma NameMeans(fs: Fs, h: Header, name: seq<byte>, links: Links, before: seq<Event>)
    ensures var r := NameEntry(fs, h, name, links, before);
            && Names(fs, h, name, LinkedTo(h, links), [], false, before, r.events)
            && (r.isOpen <==> |r.events| > |before| && r.events[|r.events| - 1].File?)
  {
    hide TryLink, LinkedTo;
    LinkTried(fs, h, name, links, before + [CleanPath(name, h.mode)]);
  }

  lemma NamesClosed(fs: Fs, h: Header, name: seq<byte>, link: Option<seq<byte>>, data: seq<byte>, before: seq<Event>, r: Named)
    requires Names(fs, h, name, link, [], false, before, r.events)
    requires r.isOpen <==> |r.events| > |before| && r.events[|r.events| - 1].File?
    ensures Names(fs, h, name, link, data, true, before, if r.isOpen then Closed(Written(r.events, data)) else r.events)
  {
    hide Written, Closed;
    if r.isOpen {
      var n := |r.events| - 1;
      FileClosed(r.events[..n], r.events[n], data);
      assert r.events == r.events[..n] + [r.events[n]];
    }
  }

  lemma PerformLeaves(fs: Fs, entries: seq<Entry>, e: Entry, w: World)
    requires WellFormed(e) && Tells(w.links, entries, e)
    ensures Leaves(fs, entries, e, w.events, Perform(fs, e, w).events)
  {
    hide Earlier, Written, Closed, NameEntry, Names, NulFree, ByteSum;
    NameMeans(fs, e.h, e.name, w.links, w.events);
    NamesClosed(fs, e.h, e.name, LinkedTo(e.h, w.links), e.body, w.events, NameEntry(fs, e.h, e.name, w.links, w.events));
  }

  /** Every entry of an archive leads to the calls its fields say. */
  lemma EntryLeaves(fs: Fs, entries: seq<Entry>, e: Entry)
    requires WellFormed(e)
    ensures Leaves(fs, entries, e, PerformAll(fs, entries).events, PerformAll(fs, entries + [e]).events)
  {
    hide Leaves, Perform, WellFormed;
    assert (entries + [e])[..|entries|] == entries;
    LinksAre(fs, entries, e);
    var w := PerformAll(fs, entries);
    PerformLeaves(fs, entries, e, w);
  }

  /** The calls after each entry, from none to all of them. */
  ghost predicate LeavesAll(fs: Fs, entries: seq<Entry>, stages: seq<seq<Event>>) {
    && |stages| == |entries| + 1 && stages[0] == []
    && forall i | 0 <= i < |entries| :: Leaves(fs, entries[..i], entries[i], stages[i], stages[i + 1])
  }

  lemma {:induction false} ArchiveLeaves(fs: Fs, entries: seq<Entry>) returns (stages: seq<seq<Event>>)
    requires AllWellFormed(entries)
    ensures LeavesAll(fs, entries, stages) && stages[|entries|] == PerformAll(fs, entries).events
    decreases |entries|
  {
    if entries == [] {
      stages := [[]];
    } else {
      hide Leaves, Perform;
      var init, last := entries[..|entries| - 1], entries[|entries| - 1];
      var some := ArchiveLeaves(fs, init);
      EntryLeaves(fs, init, last);
      assert init + [last] == entries;
      stages := some + [PerformAll(fs, entries).events];
      forall i | 0 <= i < |entries| ensures Leaves(fs, entries[..i], entries[i], stages[i], stages[i + 1]) {
        if i < |init| {
          assert Leaves(fs, init[..i], init[i], some[i], some[i + 1]);
          assert init[..i] == entries[..i];
        } else {
          assert entries[..i] == init;
        }
      }
    }
  }

  // Headers.

  const LOWER_CASE: seq<byte> := [48, 49, 50, 51, 52, 53, 54, 55, 56, 57, 97, 98, 99, 100, 101, 102]  // "0123456789abcdef"
  const UPPER_CASE: seq<byte> := [48, 49, 50, 51, 52, 53, 54, 55, 56, 57, 65, 66, 67, 68, 69, 70]     // "0123456789ABCDEF"

  /** A digit is a character of one of the two rows, and its value is its place there. */
  lemma DigitMeans(c: byte, d: nat)
    ensures HexDigit(c) == Some(d) <==> d < 16 && (LOWER_CASE[d] == c || UPPER_CASE[d] == c)
    ensures HexDigit(c).Some? <==> c in LOWER_CASE || c in UPPER_CASE
  {
    assert forall i | 0 <= i < 16 :: LOWER_CASE[i] == if i < 10 then 48 + i else 87 + i;
    assert forall i | 0 <= i < 16 :: UPPER_CASE[i] == if i < 10 then 48 + i else 55 + i;
    if HexDigit(c).Some? {
      assert LOWER_CASE[HexDigit(c).value] == c || UPPER_CASE[HexDigit(c).value] == c;
    }
  }

  /** The number that a row of hexadecimal digits stands for. */
  function Number(s: seq<byte>): nat
    requires AllHex(s)
  {
    if s == [] then 0 else 16 * Number(s[..|s| - 1]) + HexDigit(s[|s| - 1]).value
  }

  lemma {:induction false} DigitsStop(s: seq<byte>, k: nat, n: nat)
    requires k <= |s| && AllHex(s[..k]) && (k < |s| ==> HexDigit(s[k]).None?)
    ensures HexDigits(s, n) == HexDigits(s[..k], n)
    decreases |s|
  {
    if k > 0 {
      assert HexDigit(s[..k][0]).Some? && s[..k][1..] == s[1..][..k - 1];
      DigitsStop(s[1..], k - 1, 16 * n + HexDigit(s[0]).value);
    }
  }

  lemma {:induction false} DigitsMean(s: seq<byte>, k: nat)
    requires k <= |s| && AllHex(s[..k]) && (k < |s| ==> HexDigit(s[k]).None?)
    ensures HexDigits(s, 0) == Number(s[..k])
    decreases |s|
  {
    if k < |s| {
      var init := s[..|s| - 1];
      assert init[..k] == s[..k];
      DigitsStop(s, k, 0);
      DigitsStop(init, k, 0);
      DigitsMean(s[..k], k);
      assert s[..k][..k] == s[..k];
    } else if s != [] {
      var init, last := s[..|s| - 1], s[|s| - 1];
      assert s[..k] == s && init + [last] == s;
      assert init[..|init|] == init;
      DigitsMean(init, |init|);
      HexDigitsSnoc(init, last, 0);
    }
  }

  /** simple_strtoul: behind an optional 0x or 0X, the number of the digits up to the first other character. */
  lemma NumberMeans(s: seq<byte>, skip: nat, k: nat)
    requires skip == if |s| >= 2 && s[..2] in {[48, 120], [48, 88]} then 2 else 0
    requires skip <= k <= |s| && AllHex(s[skip..k]) && (k < |s| ==> HexDigit(s[k]).None?)
    ensures StrToUl(s) == Number(s[skip..k])
  {
    var t := s[skip..];
    assert t[..k - skip] == s[skip..k] && s[0..] == s;
    DigitsMean(t, k - skip);
    if |s| >= 2 { assert s[..2] == [s[0], s[1]]; }
  }

  /** parse_header: the magic, and the place of every number. */
  lemma HeaderMeans(s: seq<byte>)
    requires |s| == 110
    ensures ParseHeader(s).Some? <==> s[..6] in {[48, 55, 48, 55, 48, 49], [48, 55, 48, 55, 48, 50]}
    ensures ParseHeader(s).Some? ==>
              var h := ParseHeader(s).value;
              && (h.csumPresent <==> s[5] == 50)
              && h.ino == StrToUl(s[6..14]) && h.mode == StrToUl(s[14..22]) % 65536
              && h.uid == StrToUl(s[22..30]) && h.gid == StrToUl(s[30..38])
              && h.nlink == StrToUl(s[38..46]) && h.mtime == StrToUl(s[46..54]) && h.bodyLen == StrToUl(s[54..62])
              && h.major == StrToUl(s[62..70]) && h.minor == StrToUl(s[70..78])
              && h.rmajor == StrToUl(s[78..86]) && h.rminor == StrToUl(s[86..94])
              && h.nameLen == StrToUl(s[94..102]) && h.csum == StrToUl(s[102..110])
  {
    hide StrToUl;
    assert s[..6][5] == s[5];
    assert MAGIC[5] == 49 && MAGIC_CSUM[5] == 50;
    assert forall i | 0 <= i < 13 :: ParsedFields(s)[i] == FieldAt(s, i);
  }

  /** An entry that do_header takes in: a name of 1 to 4096 bytes, a body of at most 4096 for a link, none but for files. */
  predicate TakenIn(h: Header) {
    && 1 <= h.nameLen <= 4096
    && if h.mode / 4096 == 10 then h.bodyLen <= 4096 else h.mode / 4096 == 8 || h.bodyLen == 0
  }

  lemma AtHead(fs: Fs, entries: seq<Entry>, head: seq<byte>)
    requires AllWellFormed(entries) && |head| == 110 && head[0] == 48
    ensures var w := PerformAll(fs, entries);
            Feed(fs, Initial, EncodeAll(entries) + head) == AfterHeader(head, |EncodeAll(entries)| + 110, w.links, w.events)
  {
    hide Feed, AfterHeader, ParseHeader;
    var pos, w := |EncodeAll(entries)|, PerformAll(fs, entries);
    FeedArchive(fs, entries);
    ArchiveAligned(entries);
    FeedConcat(fs, Initial, EncodeAll(entries), head);
    FeedStart(fs, head, pos, w.links, w.events);
    FeedGather(fs, WantHeader, [], head, pos, w.links, w.events);
    assert [] + head == head;
  }

  /** do_header behind any archive: an error exactly for another magic, and set aside exactly what is not taken in. */
  lemma HeadExactly(fs: Fs, entries: seq<Entry>, head: seq<byte>)
    requires AllWellFormed(entries) && |head| == 110 && head[0] == 48
    ensures var s := Feed(fs, Initial, EncodeAll(entries) + head);
            && (s.Failed? <==> head[..6] !in {[48, 55, 48, 55, 48, 49], [48, 55, 48, 55, 48, 50]})
            && (s == Bad <==> !s.Failed? && !TakenIn(ParseHeader(head).value))
            && (s != Bad ==> s.events == PerformAll(fs, entries).events)
  {
    hide Feed, ParseHeader;
    AtHead(fs, entries, head);
    HeaderMeans(head);
  }
}
