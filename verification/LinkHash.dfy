/**
 The hard-link table of init/initramfs.c: 32 chains of entries, searched in order and appended to,
 that together behave as one map from (major, minor, inode, file type) to the first name seen.
 */
module LinkHash {
  import opened Wrappers
  import opened Cpio

  datatype Entry = Entry(key: LinkKey, name: seq<byte>)

  const BUCKETS: nat := 32

  // hash(): int arithmetic, converted to a 64-bit unsigned long.
  function Hash(k: LinkKey): (n: nat)
    ensures n < BUCKETS
  {
    var sum := (k.ino + k.minor + 8 * k.major) % U32;
    var tmp := if sum < U32 / 2 then sum else sum + (U32 - 1) * U32;
    (tmp + tmp / 32) % 32
  }

  function Search(chain: seq<Entry>, k: LinkKey): Option<seq<byte>> {
    if chain == [] then None
    else if chain[0].key == k then Some(chain[0].name)
    else Search(chain[1..], k)
  }

  function Get(links: Links, k: LinkKey): Option<seq<byte>> {
    if k in links then Some(links[k]) else None
  }

  ghost predicate Represents(heads: seq<seq<Entry>>, links: Links) {
    && |heads| == BUCKETS
    && forall k: LinkKey :: Search(heads[Hash(k)], k) == Get(links, k)
  }

  lemma {:induction false} SearchAppend(chain: seq<Entry>, e: Entry, k: LinkKey)
    ensures Search(chain + [e], k)
         == if Search(chain, k).Some? then Search(chain, k) else if e.key == k then Some(e.name) else None
    decreases |chain|
  {
    if chain == [] {
      assert chain + [e] == [e] && [e][1..] == [];
    } else {
      assert (chain + [e])[1..] == chain[1..] + [e];
      SearchAppend(chain[1..], e, k);
    }
  }

  function Empty(): (heads: seq<seq<Entry>>)
    ensures Represents(heads, map[])
  {
    seq(BUCKETS, i => [])
  }

  /** find_link: the name registered under the key, or None after registering this one. */
  method FindLink(heads: seq<seq<Entry>>, key: LinkKey, name: seq<byte>, ghost links: Links)
    returns (found: Option<seq<byte>>, heads': seq<seq<Entry>>)
    requires Represents(heads, links)
    ensures found == Get(links, key)
    ensures Represents(heads', if key in links then links else links[key := name])
  {
    var bucket := Hash(key);
    var chain := heads[bucket];
    heads' := heads;
    for i := 0 to |chain|
      invariant Search(chain, key) == Search(chain[i..], key)
    {
      assert chain[i..][1..] == chain[i + 1..];
      if chain[i].key == key {
        return Some(chain[i].name), heads;
      }
    }
    assert chain[|chain|..] == [];
    found := None;
    heads' := heads[bucket := chain + [Entry(key, name)]];
    forall k: LinkKey
      ensures Search(heads'[Hash(k)], k) == Get(links[key := name], k)
    {
      SearchAppend(chain, Entry(key, name), k);
      assert Search(heads[Hash(k)], k) == Get(links, k);
    }
  }
}
