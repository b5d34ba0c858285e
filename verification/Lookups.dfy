/**
 Lookups by hash, height and commit, and the fingerprint of the whole store, each proved
 equal to a naive search over the stored block list.
 */
module Lookups {
  import opened Bits
  import opened Bytes
  import opened KeyValue
  import opened Layout
  import opened Scans

  const NO_BLOCK := Metadata(0, ZERO, ZERO, ZERO)

  // ---------------------------------------------------------------- by hash

  /** The reverse scan of `db_get_block_by_hash`, with `m` the metadata decoded last. */
  function ScanBack(es: seq<Entry>, hash: Hash, m: Metadata): Metadata
    requires WellSized(es)
  {
    if es == [] then m else
      var front, e := es[..|es| - 1], es[|es| - 1];
      if |e.key| != BLOCK_KEY_LENGTH then ScanBack(front, hash, m)
      else
        var d := DecodeMetadata(e.key, e.value);
        if d.hash == hash then d else ScanBack(front, hash, d)
  }

  /** The newest block with that hash; failing that the oldest block; failing that `m`. */
  function FindByHash(bs: seq<Block>, hash: Hash, m: Metadata): Metadata
  {
    if bs == [] then m else
      var b := bs[|bs| - 1];
      if b.meta.hash == hash then b.meta else FindByHash(bs[..|bs| - 1], hash, b.meta)
  }

  lemma CommitEntrySize(b: Block, i: nat)
    requires i < |b.commits|
    ensures |CommitEntries(b)[i].key| == COMMIT_KEY_LENGTH && |CommitEntries(b)[i].value| == 32
  {
  }

  lemma {:induction false} ScanBackCommits(a: seq<Entry>, b: Block, n: nat, hash: Hash, m: Metadata)
    requires WellSized(a) && n <= |b.commits|
    ensures WellSized(a + CommitEntries(b)[..n])
    ensures ScanBack(a + CommitEntries(b)[..n], hash, m) == ScanBack(a, hash, m)
  {
    hide CommitEntries, DecodeMetadata;
    var cs := CommitEntries(b);
    if n == 0 {
      assert a + cs[..0] == a;
    } else {
      ScanBackCommits(a, b, n - 1, hash, m);
      var e := cs[n - 1];
      CommitEntrySize(b, n - 1);
      TakeSnoc(cs, n - 1);
      ConcatAssoc(a, cs[..n - 1], [e]);
      var es := a + cs[..n];
      assert es[..|es| - 1] == a + cs[..n - 1] && es[|es| - 1] == e;
    }
  }

  lemma ScanBackBlock(a: seq<Entry>, b: Block, hash: Hash, m: Metadata)
    requires WellSized(a) && b.meta.height < TWO_64
    ensures WellSized(a + BlockEntries(b))
    ensures ScanBack(a + BlockEntries(b), hash, m)
         == if b.meta.hash == hash then b.meta else ScanBack(a, hash, b.meta)
  {
    var e := Entry(BlockKey(b.meta.height), EncodeMetadata(b.meta));
    var cs := CommitEntries(b);
    MetadataRoundTrip(b.meta);
    var es := a + [e];
    assert es[..|es| - 1] == a && es[|es| - 1] == e;
    ScanBackCommits(es, b, |cs|, hash, m);
    assert cs[..|cs|] == cs;
    ConcatAssoc(a, [e], cs);
  }

  lemma {:induction false} ScanBackStored(bs: seq<Block>, hash: Hash, m: Metadata)
    requires forall i | 0 <= i < |bs| :: bs[i].meta.height < TWO_64
    ensures WellSized(AllEntries(bs))
    ensures ScanBack(AllEntries(bs), hash, m) == FindByHash(bs, hash, m)
  {
    if bs == [] {
      assert AllEntries(bs)[..0] == [];
      assert AllEntries(bs) == [VERSION_ENTRY];
    } else {
      var n := |bs| - 1;
      BlocksEntriesWellSized(bs[..n]);
      AllEntriesSnoc(bs);
      ScanBackBlock(AllEntries(bs[..n]), bs[n], hash, m);
      ScanBackStored(bs[..n], hash, bs[n].meta);
    }
  }

  /** A hash that occurs once is found. */
  lemma {:induction false} FindByHashHit(bs: seq<Block>, i: nat, m: Metadata)
    requires i < |bs|
    requires forall j | i < j < |bs| :: bs[j].meta.hash != bs[i].meta.hash
    ensures FindByHash(bs, bs[i].meta.hash, m) == bs[i].meta
    decreases |bs|
  {
    var n := |bs| - 1;
    if i < n {
      assert bs[..n][i] == bs[i];
      FindByHashHit(bs[..n], i, bs[n].meta);
    }
  }

  /** A hash that is not stored falls through to the oldest stored block. */
  lemma {:induction false} FindByHashMiss(bs: seq<Block>, hash: Hash, m: Metadata)
    requires forall j | 0 <= j < |bs| :: bs[j].meta.hash != hash
    ensures FindByHash(bs, hash, m) == if bs == [] then m else bs[0].meta
  {
    if bs != [] {
      FindByHashMiss(bs[..|bs| - 1], hash, bs[|bs| - 1].meta);
    }
  }

  method GetBlockByHash(db: Store, hash: Hash) returns (metadata: Metadata)
    requires WellSized(Iterate(db))
    ensures metadata == ScanBack(Iterate(db), hash, NO_BLOCK)
  {
    hide Iterate, EncodeMetadata, BlockKey, TagKey;
    var es := Iterate(db);
    metadata := NO_BLOCK;
    var i := |es|;
    assert es[..i] == es;
    while i > 0
      invariant 0 <= i <= |es|
      invariant ScanBack(es[..i], hash, metadata) == ScanBack(es, hash, NO_BLOCK)
    {
      i := i - 1;
      assert es[..i + 1][..i] == es[..i];
      if |es[i].key| == BLOCK_KEY_LENGTH {
        metadata := DecodeMetadata(es[i].key, es[i].value);
        if metadata.hash == hash {
          return;
        }
      }
    }
  }

  // ---------------------------------------------------------------- by height

  /**
   `db_get_block_by_height` on a stored list: the block of least height at or above the
   argument, or the zero metadata if there is none. The seek never lands on a commit entry,
   whose value would be too short to decode.
   */
  method GetBlockByHeight(db: Store, height: nat, ghost bs: seq<Block>) returns (metadata: Metadata)
    requires height < TWO_64 && Storable(bs) && db == StoreOf(bs)
    ensures HeightsBelow(bs, height) ==> metadata == NO_BLOCK == Metadata(0, Zeros(32), Zeros(32), Zeros(32))
    ensures !HeightsBelow(bs, height) ==>
              exists n :: 0 <= n < |bs| && metadata == bs[n].meta
                          && bs[n].meta.height >= height && HeightsBelow(bs[..n], height)
  {
    hide Storable, StoreOf, HeightsBelow, BlockKey, Less, DecodeMetadata, AllEntries, Iterate;
    var es := Iterate(db);
    ghost var n := FirstFrom(bs, height);
    SeekStored(bs, n, height);
    StoreOfIterate(bs);
    metadata := NO_BLOCK;
    var i := 0;
    while i < |es| && Less(es[i].key, BlockKey(height))
      invariant i <= |AllEntries(bs[..n])|
    {
      i := i + 1;
    }
    if i < |es| {
      metadata := DecodeMetadata(es[i].key, es[i].value);
    }
  }

  /** Number of leading blocks below the height. */
  ghost function FirstFrom(bs: seq<Block>, h: nat): (n: nat)
    requires Storable(bs)
    ensures n <= |bs| && HeightsBelow(bs[..n], h)
    ensures n < |bs| ==> bs[n].meta.height >= h
  {
    if bs == [] || bs[|bs| - 1].meta.height < h then |bs| else
      var front := bs[..|bs| - 1];
      var n := FirstFrom(front, h);
      assert bs[..n] == front[..n];
      n
  }

  lemma SeekStored(bs: seq<Block>, n: nat, h: nat)
    requires Storable(bs) && h < TWO_64 && n <= |bs| && HeightsBelow(bs[..n], h)
    requires n < |bs| ==> bs[n].meta.height >= h
    ensures var es, k := AllEntries(bs), |AllEntries(bs[..n])|;
            && k <= |es|
            && (forall i | 0 <= i < k :: Less(es[i].key, BlockKey(h)))
            && (k == |es| <==> n == |bs|)
            && (k < |es| ==> !Less(es[k].key, BlockKey(h)) && |es[k].key| == BLOCK_KEY_LENGTH
                             && |es[k].value| == 96 && DecodeMetadata(es[k].key, es[k].value) == bs[n].meta)
    ensures HeightsBelow(bs, h) <==> n == |bs|
  {
    if n < |bs| {
      forall i | 0 <= i < |bs[n..]| ensures bs[n..][i].meta.height >= h {
        assert bs[n..][i] == bs[n + i];
      }
    }
    AllEntriesCut(bs, n, h);
    var a, b := AllEntries(bs[..n]), BlocksEntries(bs[n..]);
    forall i | 0 <= i < |a| ensures Less(AllEntries(bs)[i].key, BlockKey(h)) {
      assert AllEntries(bs)[i] == a[i];
    }
    if n < |bs| {
      FirstEntry(bs[n..]);
      assert AllEntries(bs)[|a|] == b[0];
      MetadataRoundTrip(bs[n].meta);
    } else {
      assert bs[..n] == bs;
    }
  }

  lemma {:induction false} FirstEntry(bs: seq<Block>)
    requires bs != []
    ensures |BlocksEntries(bs)| > 0
    ensures BlocksEntries(bs)[0] == Entry(BlockKey(bs[0].meta.height), EncodeMetadata(bs[0].meta))
  {
    if |bs| > 1 {
      FirstEntry(bs[..|bs| - 1]);
    } else {
      assert BlocksEntries(bs[..0]) == [];
    }
  }

  // ---------------------------------------------------------------- by commit

  /** The loop state of `db_find_commits`. */
  datatype Search = Search(out: seq<nat>, height: nat)

  function SearchStep(s: Search, e: Entry, c: Hash): Search
    requires |e.key| == COMMIT_KEY_LENGTH ==> |e.value| >= 32
  {
    if |e.key| == BLOCK_KEY_LENGTH then Search(s.out, FromBigEndian(e.key))
    else if |e.key| == COMMIT_KEY_LENGTH && e.value[0..32] == c then Search(s.out + [s.height], s.height)
    else s
  }

  function SearchAll(es: seq<Entry>, c: Hash): Search
    requires WellSized(es)
  {
    if es == [] then Search([], 0) else SearchStep(SearchAll(es[..|es| - 1], c), es[|es| - 1], c)
  }

  /** One copy of `h` for each occurrence of `c`. */
  function Occurrences(cs: seq<Hash>, c: Hash, h: nat): (r: seq<nat>)
    ensures forall x | x in r :: x == h
    ensures |r| == multiset(cs)[c]
  {
    if cs == [] then [] else
      var n := |cs| - 1;
      assert cs == cs[..n] + [cs[n]];
      Occurrences(cs[..n], c, h) + if cs[n] == c then [h] else []
  }

  /** The naive search: block by block, each height once for every occurrence. */
  function FindInBlocks(bs: seq<Block>, c: Hash): seq<nat>
  {
    if bs == [] then [] else
      var b := bs[|bs| - 1];
      FindInBlocks(bs[..|bs| - 1], c) + Occurrences(b.commits, c, b.meta.height)
  }

  lemma SearchSnoc(es: seq<Entry>, e: Entry, c: Hash)
    requires WellSized(es + [e])
    ensures WellSized(es) && SearchAll(es + [e], c) == SearchStep(SearchAll(es, c), (es + [e])[|es|], c)
  {
    assert forall i | 0 <= i < |es| :: es[i] == (es + [e])[i];
    assert (es + [e])[..|es|] == es;
  }

  lemma SearchCommitKey(out: seq<nat>, h: nat, cs: seq<Hash>, d: Hash, c: Hash, order: nat)
    ensures SearchStep(Search(out + Occurrences(cs, c, h), h), Entry(TagKey(h, order), d), c)
         == Search(out + Occurrences(cs + [d], c, h), h)
  {
    assert d[0..32] == d;
    assert (cs + [d])[..|cs|] == cs;
    ConcatAssoc(out, Occurrences(cs, c, h), [h]);
    assert Occurrences(cs, c, h) + [] == Occurrences(cs, c, h);
  }

  lemma {:induction false} SearchCommits(a: seq<Entry>, b: Block, n: nat, c: Hash, out: seq<nat>)
    requires WellSized(a) && n <= |b.commits| && SearchAll(a, c) == Search(out, b.meta.height)
    ensures WellSized(a + CommitEntries(b)[..n])
    ensures SearchAll(a + CommitEntries(b)[..n], c)
         == Search(out + Occurrences(b.commits[..n], c, b.meta.height), b.meta.height)
  {
    var cs := CommitEntries(b);
    if n == 0 {
      assert a + cs[..0] == a;
    } else {
      SearchCommits(a, b, n - 1, c, out);
      var d := b.commits[n - 1];
      var e := cs[n - 1];
      assert e == Entry(TagKey(b.meta.height, n - 1), d);
      SearchCommitKey(out, b.meta.height, b.commits[..n - 1], d, c, n - 1);
      TakeSnoc(b.commits, n - 1);
      TakeSnoc(cs, n - 1);
      ConcatAssoc(a, cs[..n - 1], [e]);
      var front := a + cs[..n - 1];
      assert WellSized(front + [e]);
      SearchSnoc(front, e, c);
    }
  }

  lemma SearchBlock(a: seq<Entry>, b: Block, c: Hash)
    requires WellSized(a) && b.meta.height < TWO_64
    ensures WellSized(a + BlockEntries(b))
    ensures SearchAll(a + BlockEntries(b), c)
         == Search(SearchAll(a, c).out + Occurrences(b.commits, c, b.meta.height), b.meta.height)
  {
    var e := Entry(BlockKey(b.meta.height), EncodeMetadata(b.meta));
    var cs := CommitEntries(b);
    Pow256Values();
    BigEndianRoundTrip(b.meta.height, 8);
    SearchSnoc(a, e, c);
    SearchCommits(a + [e], b, |cs|, c, SearchAll(a, c).out);
    assert cs[..|cs|] == cs && b.commits[..|cs|] == b.commits;
    ConcatAssoc(a, [e], cs);
  }

  lemma {:induction false} SearchEntries(bs: seq<Block>, c: Hash)
    requires forall i | 0 <= i < |bs| :: bs[i].meta.height < TWO_64
    ensures WellSized(AllEntries(bs))
    ensures SearchAll(AllEntries(bs), c).out == FindInBlocks(bs, c)
  {
    BlocksEntriesWellSized(bs);
    if bs == [] {
      assert AllEntries(bs) == [VERSION_ENTRY];
      assert [VERSION_ENTRY][..0] == [];
    } else {
      var n := |bs| - 1;
      BlocksEntriesWellSized(bs[..n]);
      AllEntriesSnoc(bs);
      SearchBlock(AllEntries(bs[..n]), bs[n], c);
      SearchEntries(bs[..n], c);
    }
  }

  /** On every stored list the key scan agrees with the naive search over the blocks. */
  lemma SearchStored(bs: seq<Block>, c: Hash)
    requires Storable(bs)
    ensures WellSized(Iterate(StoreOf(bs)))
    ensures SearchAll(Iterate(StoreOf(bs)), c).out == FindInBlocks(bs, c)
  {
    StoreOfIterate(bs);
    SearchEntries(bs, c);
  }

  ghost predicate HoldsAt(bs: seq<Block>, c: Hash, h: nat)
  {
    exists i :: 0 <= i < |bs| && bs[i].meta.height == h && c in bs[i].commits
  }

  lemma HoldsAtSnoc(bs: seq<Block>, c: Hash, h: nat)
    requires bs != []
    ensures var b := bs[|bs| - 1];
            HoldsAt(bs, c, h) <==> HoldsAt(bs[..|bs| - 1], c, h) || (b.meta.height == h && c in b.commits)
  {
    var n := |bs| - 1;
    if i :| 0 <= i < |bs| && bs[i].meta.height == h && c in bs[i].commits {
      assert i == n || bs[..n][i] == bs[i];
    }
    if i :| 0 <= i < n && bs[..n][i].meta.height == h && c in bs[..n][i].commits {
      assert bs[i] == bs[..n][i];
    }
  }

  lemma OccurrencesMember(cs: seq<Hash>, c: Hash, h: nat)
    ensures h in Occurrences(cs, c, h) <==> c in cs
  {
    var o := Occurrences(cs, c, h);
    assert c in cs <==> c in multiset(cs);
    if |o| > 0 {
      assert o[0] in o;
    }
  }

  /** A height is reported exactly when a block at that height holds the commit. */
  lemma {:induction false} FindInBlocksMembers(bs: seq<Block>, c: Hash, h: nat)
    ensures h in FindInBlocks(bs, c) <==> HoldsAt(bs, c, h)
  {
    if bs != [] {
      var b := bs[|bs| - 1];
      FindInBlocksMembers(bs[..|bs| - 1], c, h);
      HoldsAtSnoc(bs, c, h);
      OccurrencesMember(b.commits, c, b.meta.height);
    }
  }

  /** Heights are reported in non-decreasing order. */
  lemma {:induction false} FindInBlocksOrder(bs: seq<Block>, c: Hash)
    requires Storable(bs)
    ensures var r := FindInBlocks(bs, c); forall i, j | 0 <= i < j < |r| :: r[i] <= r[j]
  {
    if bs != [] {
      var n := |bs| - 1;
      FindInBlocksOrder(bs[..n], c);
      var p, o := FindInBlocks(bs[..n], c), Occurrences(bs[n].commits, c, bs[n].meta.height);
      forall i | 0 <= i < |p| ensures p[i] < bs[n].meta.height {
        assert p[i] in p;
        FindInBlocksMembers(bs[..n], c, p[i]);
      }
      forall i | 0 <= i < |o| ensures o[i] == bs[n].meta.height {
        assert o[i] in o;
      }
    }
  }

  lemma OccurrencesCount(cs: seq<Hash>, c: Hash, h: nat, g: nat)
    ensures multiset(Occurrences(cs, c, h))[g] == if g == h then multiset(cs)[c] else 0
  {
    var o := Occurrences(cs, c, h);
    CountUniform(o, h, g);
  }

  lemma {:induction false} CountUniform(o: seq<nat>, h: nat, g: nat)
    requires forall x | x in o :: x == h
    ensures multiset(o)[g] == if g == h then |o| else 0
  {
    if o != [] {
      var n := |o| - 1;
      assert o == o[..n] + [o[n]] && o[n] in o;
      assert forall x | x in o[..n] :: x in o;
      CountUniform(o[..n], h, g);
    }
  }

  /** The height of a block is reported as often as the block holds the commit. */
  lemma {:induction false} FindInBlocksCount(bs: seq<Block>, c: Hash, i: nat)
    requires Storable(bs) && i < |bs|
    ensures multiset(FindInBlocks(bs, c))[bs[i].meta.height] == multiset(bs[i].commits)[c]
  {
    var n, h := |bs| - 1, bs[i].meta.height;
    var front, b := bs[..n], bs[n];
    OccurrencesCount(b.commits, c, b.meta.height, h);
    assert multiset(FindInBlocks(bs, c))[h]
        == multiset(FindInBlocks(front, c))[h] + multiset(Occurrences(b.commits, c, b.meta.height))[h];
    if i < n {
      FindInBlocksCount(front, c, i);
    } else {
      FindInBlocksMembers(front, c, h);
      assert h !in FindInBlocks(front, c);
    }
  }

  method FindCommits(db: Store, commit: Hash) returns (out: seq<nat>)
    requires WellSized(Iterate(db))
    ensures out == SearchAll(Iterate(db), commit).out
  {
    var es := Iterate(db);
    var height := 0;
    out := [];
    for i := 0 to |es|
      invariant SearchAll(es[..i], commit) == Search(out, height)
    {
      assert es[..i + 1][..i] == es[..i];
      if |es[i].key| == BLOCK_KEY_LENGTH {
        height := FromBigEndian(es[i].key);
      }
      if |es[i].key| == COMMIT_KEY_LENGTH {
        if es[i].value[0..32] == commit {
          out := out + [height];
        }
      }
    }
    assert es[..|es|] == es;
  }

  // ---------------------------------------------------------------- fingerprint of the store

  function Xor(a: Hash, b: Hash): Hash
  {
    seq(32, i requires 0 <= i < 32 => XorByte(a[i], b[i]))
  }

  /** `xor_hex`: a bit of the result is set exactly if it differs in the operands. */
  method XorHex(a: Hash, b: Hash) returns (out: Hash)
    ensures forall i, k: nat | 0 <= i < 32 && k < 8 :: BitSet(out[i], k) <==> BitSet(a[i], k) != BitSet(b[i], k)
    ensures out == Xor(a, b)
  {
    hide BitSet, XorByte;
    var r: Bytes := [];
    for i := 0 to 32
      invariant |r| == i
      invariant forall j | 0 <= j < i :: r[j] == XorByte(a[j], b[j])
    {
      r := r + [XorByte(a[i], b[i])];
    }
    out := r;
    forall i, k: nat | 0 <= i < 32 && k < 8 ensures BitSet(out[i], k) <==> BitSet(a[i], k) != BitSet(b[i], k) {
      XorBit(a[i], b[i], k);
    }
  }

  /** The order of xors does not matter, zero changes nothing, and a second xor undoes the first. */
  lemma XorLaws(a: Hash, b: Hash, c: Hash)
    ensures Xor(a, b) == Xor(b, a) && Xor(Xor(a, b), c) == Xor(a, Xor(b, c))
    ensures Xor(a, ZERO) == a && Xor(a, a) == ZERO && Xor(Xor(a, b), b) == a
  {
    hide XorByte;
    forall i | 0 <= i < 32
      ensures XorByte(a[i], b[i]) == XorByte(b[i], a[i])
      ensures XorByte(XorByte(a[i], b[i]), c[i]) == XorByte(a[i], XorByte(b[i], c[i]))
      ensures XorByte(a[i], 0) == a[i] && XorByte(a[i], a[i]) == 0 && XorByte(XorByte(a[i], b[i]), b[i]) == a[i]
    {
      XorByteLaws(a[i], b[i], c[i]);
      XorByteLaws(a[i], b[i], b[i]);
      XorByteLaws(b[i], a[i], a[i]);
    }
  }

  function ScanFingerprint(es: seq<Entry>): Hash
    requires WellSized(es)
  {
    if es == [] then ZERO else
      var front, e := es[..|es| - 1], es[|es| - 1];
      if |e.key| == BLOCK_KEY_LENGTH then Xor(ScanFingerprint(front), DecodeMetadata(e.key, e.value).fingerprint)
      else ScanFingerprint(front)
  }

  /** The xor of the fingerprints of a block list. */
  function ChainFingerprint(bs: seq<Block>): Hash
  {
    if bs == [] then ZERO else Xor(ChainFingerprint(bs[..|bs| - 1]), bs[|bs| - 1].meta.fingerprint)
  }

  lemma {:induction false} FingerprintCommits(a: seq<Entry>, b: Block, n: nat)
    requires WellSized(a) && n <= |b.commits|
    ensures WellSized(a + CommitEntries(b)[..n])
    ensures ScanFingerprint(a + CommitEntries(b)[..n]) == ScanFingerprint(a)
  {
    var cs := CommitEntries(b);
    if n == 0 {
      assert a + cs[..0] == a;
    } else {
      FingerprintCommits(a, b, n - 1);
      var e := cs[n - 1];
      assert |e.key| == COMMIT_KEY_LENGTH && |e.value| == 32;
      TakeSnoc(cs, n - 1);
      ConcatAssoc(a, cs[..n - 1], [e]);
      var es := a + cs[..n];
      assert es[..|es| - 1] == a + cs[..n - 1] && es[|es| - 1] == e;
    }
  }

  lemma FingerprintBlock(a: seq<Entry>, b: Block)
    requires WellSized(a) && b.meta.height < TWO_64
    ensures WellSized(a + BlockEntries(b))
    ensures ScanFingerprint(a + BlockEntries(b)) == Xor(ScanFingerprint(a), b.meta.fingerprint)
  {
    var e := Entry(BlockKey(b.meta.height), EncodeMetadata(b.meta));
    var cs := CommitEntries(b);
    MetadataRoundTrip(b.meta);
    var es := a + [e];
    assert es[..|es| - 1] == a && es[|es| - 1] == e;
    FingerprintCommits(es, b, |cs|);
    assert cs[..|cs|] == cs;
    ConcatAssoc(a, [e], cs);
  }

  /** The store's fingerprint depends on its block list alone. */
  lemma {:induction false} FingerprintStored(bs: seq<Block>)
    requires forall i | 0 <= i < |bs| :: bs[i].meta.height < TWO_64
    ensures WellSized(AllEntries(bs))
    ensures ScanFingerprint(AllEntries(bs)) == ChainFingerprint(bs)
  {
    BlocksEntriesWellSized(bs);
    if bs == [] {
      assert AllEntries(bs) == [VERSION_ENTRY];
      assert [VERSION_ENTRY][..0] == [];
    } else {
      var n := |bs| - 1;
      BlocksEntriesWellSized(bs[..n]);
      AllEntriesSnoc(bs);
      FingerprintBlock(AllEntries(bs[..n]), bs[n]);
      FingerprintStored(bs[..n]);
    }
  }

  /** The blocks whose fingerprint has a given bit set. */
  ghost function WithBit(bs: seq<Block>, i: nat, k: nat): set<nat>
    requires i < 32 && k < 8
  {
    set j: nat | j < |bs| && BitSet(bs[j].meta.fingerprint[i], k)
  }

  lemma WithBitSnoc(bs: seq<Block>, b: Block, i: nat, k: nat)
    requires i < 32 && k < 8
    ensures |WithBit(bs + [b], i, k)| == |WithBit(bs, i, k)| + if BitSet(b.meta.fingerprint[i], k) then 1 else 0
  {
    hide BitSet;
    var n, more := |bs|, bs + [b];
    assert forall j | 0 <= j < n :: more[j] == bs[j];
    assert WithBit(more, i, k) == WithBit(bs, i, k) + if BitSet(b.meta.fingerprint[i], k) then {n} else {};
  }

  /** A bit of the combined fingerprint is set exactly if it is in the fingerprints of an odd number of blocks. */
  lemma {:induction false} FingerprintParity(bs: seq<Block>, i: nat, k: nat)
    requires i < 32 && k < 8
    ensures BitSet(ChainFingerprint(bs)[i], k) <==> |WithBit(bs, i, k)| % 2 == 1
  {
    hide BitSet, XorByte;
    if bs == [] {
      NoBits(k);
      assert WithBit(bs, i, k) == {};
    } else {
      var n := |bs| - 1;
      FingerprintParity(bs[..n], i, k);
      assert bs == bs[..n] + [bs[n]];
      WithBitSnoc(bs[..n], bs[n], i, k);
      XorBit(ChainFingerprint(bs[..n])[i], bs[n].meta.fingerprint[i], k);
    }
  }

  lemma StoredFingerprint(bs: seq<Block>)
    requires Storable(bs)
    ensures WellSized(Iterate(StoreOf(bs))) && ScanFingerprint(Iterate(StoreOf(bs))) == ChainFingerprint(bs)
  {
    StoreOfIterate(bs);
    FingerprintStored(bs);
  }

  /** So it is with the fingerprint of a store. */
  lemma StoreParity(bs: seq<Block>, i: nat, k: nat)
    requires Storable(bs) && i < 32 && k < 8
    ensures WellSized(Iterate(StoreOf(bs)))
    ensures BitSet(ScanFingerprint(Iterate(StoreOf(bs)))[i], k) <==> |WithBit(bs, i, k)| % 2 == 1
  {
    StoredFingerprint(bs);
    FingerprintParity(bs, i, k);
  }

  /** Storing one more block changes the store's fingerprint by that of the block; the same change again takes it back. */
  lemma FingerprintChange(bs: seq<Block>, b: Block)
    requires Storable(bs) && Storable(bs + [b])
    ensures var db, db' := StoreOf(bs), Apply(StoreOf(bs), StoreOps(b));
            && WellSized(Iterate(db)) && WellSized(Iterate(db'))
            && ScanFingerprint(Iterate(db')) == Xor(ScanFingerprint(Iterate(db)), b.meta.fingerprint)
            && Xor(ScanFingerprint(Iterate(db')), b.meta.fingerprint) == ScanFingerprint(Iterate(db))
  {
    hide Storable, StoreOf, Xor, ScanFingerprint, Iterate, Apply, StoreOps, WellSized;
    StoreOfAppend(bs, b);
    StoredFingerprint(bs);
    StoredFingerprint(bs + [b]);
    assert (bs + [b])[..|bs|] == bs;
    XorLaws(ChainFingerprint(bs), b.meta.fingerprint, ZERO);
  }

  method StoreFingerprint(db: Store) returns (fingerprint: Hash)
    requires WellSized(Iterate(db))
    ensures fingerprint == ScanFingerprint(Iterate(db))
  {
    var es := Iterate(db);
    fingerprint := ZERO;
    for i := 0 to |es|
      invariant fingerprint == ScanFingerprint(es[..i])
    {
      assert es[..i + 1][..i] == es[..i];
      if |es[i].key| == BLOCK_KEY_LENGTH {
        var metadata := DecodeMetadata(es[i].key, es[i].value);
        fingerprint := XorHex(fingerprint, metadata.fingerprint);
      }
    }
    assert es[..|es|] == es;
  }
}
