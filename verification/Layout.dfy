/**
 The store's key layout: a 2-byte version key, 8-byte block keys and 16-byte commit
 keys in one key space, told apart by length and ordered so that a block's metadata is
 followed directly by its commits.
 */
module Layout {
  import opened Bytes
  import opened KeyValue

  const BLOCK_KEY_LENGTH := 8
  const COMMIT_KEY_LENGTH := 16

  /** Heights a full scan can reach: the scan's limit key is that of height 2^64 - 1. */
  const HEIGHT_LIMIT: nat := TWO_64 - 1

  datatype Metadata = Metadata(height: nat, hash: Hash, previous: Hash, fingerprint: Hash)

  datatype Block = Block(meta: Metadata, commits: seq<Hash>)

  /** The zero value of a block, emitted once by every non-empty scan. */
  const DUMMY := Block(Metadata(0, ZERO, ZERO, ZERO), [])

  // ---------------------------------------------------------------- codecs

  const VERSION_KEY: Bytes := [0, 0]
  const VERSION_VALUE: Bytes := [0, 2]

  function BlockKey(height: nat): (k: Bytes)
    ensures |k| == BLOCK_KEY_LENGTH
  {
    BigEndian(height, 8)
  }

  /** `encode_tag`: height, position in the block, four bytes of padding. The position is a uint32. */
  function TagKey(height: nat, order: nat): (k: Bytes)
    ensures |k| == COMMIT_KEY_LENGTH
  {
    BigEndian(height, 8) + (BigEndian(order % TWO_32, 4) + [0, 0, 0, 0])
  }

  function EncodeMetadata(m: Metadata): (v: Bytes)
    ensures |v| == 96
  {
    m.hash + m.previous + m.fingerprint
  }

  function DecodeMetadata(key: Bytes, value: Bytes): Metadata
    requires |key| >= 8 && |value| >= 96
  {
    Metadata(FromBigEndian(key[0..8]), value[0..32], value[32..64], value[64..96])
  }

  function DecodeCommit(value: Bytes): Hash
    requires |value| >= 32
  {
    value[0..32]
  }

  /** `decode_tag`. */
  function DecodeTag(key: Bytes): (nat, nat)
    requires |key| >= 12
  {
    (FromBigEndian(key[0..8]), FromBigEndian(key[8..12]))
  }

  /** Hash, previous hash and fingerprint, in this order. */
  lemma MetadataLayout(m: Metadata)
    ensures var v := EncodeMetadata(m); v[0..32] == m.hash && v[32..64] == m.previous && v[64..96] == m.fingerprint
  {
    var v := EncodeMetadata(m);
    assert v == m.hash + (m.previous + m.fingerprint);
    assert v[0..32] == m.hash && v[32..64] == m.previous && v[64..96] == m.fingerprint;
  }

  /** Height, position and zeros; a block key is the start of its commits' keys. */
  lemma TagLayout(height: nat, order: nat)
    requires height < TWO_64 && order < TWO_32
    ensures var k := TagKey(height, order);
            && k[0..8] == BlockKey(height) && FromBigEndian(k[0..8]) == height
            && FromBigEndian(k[8..12]) == order && k[12..16] == [0, 0, 0, 0]
  {
    TagRoundTrip(height, order);
    var k := TagKey(height, order);
    assert k[0..8] == BigEndian(height, 8) && k[12..16] == [0, 0, 0, 0];
  }

  /** `db_new` and `DB_CURRENT_VERSION`: two zero bytes hold the number 2. */
  lemma VersionLayout()
    ensures VERSION_KEY == Zeros(2) && |VERSION_VALUE| == 2 && FromBigEndian(VERSION_VALUE) == 2
  {
    assert VERSION_VALUE[..1] == [0] && [0][..0] == [];
    assert FromBigEndian([0]) == 0;
  }

  lemma MetadataRoundTrip(m: Metadata)
    requires m.height < TWO_64
    ensures DecodeMetadata(BlockKey(m.height), EncodeMetadata(m)) == m
  {
    Pow256Values();
    BigEndianRoundTrip(m.height, 8);
    assert BlockKey(m.height)[0..8] == BlockKey(m.height);
    var v := EncodeMetadata(m);
    assert v[0..32] == m.hash && v[32..64] == m.previous && v[64..96] == m.fingerprint;
  }

  lemma TagRoundTrip(height: nat, order: nat)
    requires height < TWO_64 && order < TWO_32
    ensures DecodeTag(TagKey(height, order)) == (height, order)
  {
    Pow256Values();
    BigEndianRoundTrip(height, 8);
    BigEndianRoundTrip(order, 4);
    var k := TagKey(height, order);
    assert k[0..8] == BigEndian(height, 8) && k[8..12] == BigEndian(order, 4);
  }

  // ---------------------------------------------------------------- key order

  lemma VersionKeyFirst(height: nat)
    ensures Less(VERSION_KEY, BlockKey(height))
  {
    var k := BlockKey(height);
    assert k == k[..2] + k[2..];
    LessConcat(VERSION_KEY, k[..2], [], k[2..]);
    assert VERSION_KEY + [] == VERSION_KEY;
    assert k[..2] == [k[0], k[1]];
    assert [k[0], k[1]][1..] == [k[1]];
    assert VERSION_KEY[1..] == [0];
    assert Less([0], [k[1]]) || k[1] == 0;
  }

  lemma BlockKeyOrder(h: nat, g: nat)
    requires h < TWO_64 && g < TWO_64
    ensures Less(BlockKey(h), BlockKey(g)) <==> h < g
    ensures BlockKey(h) == BlockKey(g) <==> h == g
  {
    Pow256Values();
    BigEndianOrder(h, g, 8);
  }

  lemma TagBlockOrder(h: nat, order: nat, g: nat)
    requires h < TWO_64 && g < TWO_64
    ensures Less(TagKey(h, order), BlockKey(g)) <==> h < g
  {
    Pow256Values();
    BigEndianOrder(h, g, 8);
    var tail := BigEndian(order % TWO_32, 4) + [0, 0, 0, 0];
    LessConcat(BigEndian(h, 8), BigEndian(g, 8), tail, []);
    assert BigEndian(g, 8) + [] == BigEndian(g, 8);
  }

  lemma BlockTagOrder(h: nat, g: nat, order: nat)
    requires h < TWO_64 && g < TWO_64
    ensures Less(BlockKey(h), TagKey(g, order)) <==> h <= g
  {
    Pow256Values();
    BigEndianOrder(h, g, 8);
    var tail := BigEndian(order % TWO_32, 4) + [0, 0, 0, 0];
    LessConcat(BigEndian(h, 8), BigEndian(g, 8), [], tail);
    assert BigEndian(h, 8) + [] == BigEndian(h, 8);
  }

  lemma TagOrder(h: nat, i: nat, j: nat)
    requires i < TWO_32 && j < TWO_32
    ensures Less(TagKey(h, i), TagKey(h, j)) <==> i < j
    ensures TagKey(h, i) == TagKey(h, j) <==> i == j
  {
    assert i % TWO_32 == i && j % TWO_32 == j;
    var a, b := BigEndian(i, 4), BigEndian(j, 4);
    assert (Less(a, b) <==> i < j) && (a == b <==> i == j) by {
      Pow256Values();
      BigEndianOrder(i, j, 4);
    }
    TailOrder(BigEndian(h, 8), a, b, [0, 0, 0, 0]);
  }

  lemma TailOrder(head: Bytes, a: Bytes, b: Bytes, pad: Bytes)
    requires |a| == |b|
    ensures Less(head + (a + pad), head + (b + pad)) <==> Less(a, b)
    ensures head + (a + pad) == head + (b + pad) <==> a == b
  {
    LessConcat(a, b, pad, pad);
    LessIrreflexive(pad);
    LessConcat(head, head, a + pad, b + pad);
    LessIrreflexive(head);
    if head + (a + pad) == head + (b + pad) {
      assert a == (head + (a + pad))[|head|..|head| + |a|];
      assert b == (head + (b + pad))[|head|..|head| + |b|];
    }
  }

  // ---------------------------------------------------------------- block lists as stores

  /** The entries one block occupies, in key order. */
  function BlockEntries(b: Block): (es: seq<Entry>)
    ensures |es| == 1 + |b.commits|
  {
    [Entry(BlockKey(b.meta.height), EncodeMetadata(b.meta))] + CommitEntries(b)
  }

  function CommitEntries(b: Block): (es: seq<Entry>)
    ensures |es| == |b.commits|
  {
    seq(|b.commits|, i requires 0 <= i < |b.commits| => Entry(TagKey(b.meta.height, i), b.commits[i]))
  }

  /** The entries of a block list after the version entry. */
  function BlocksEntries(bs: seq<Block>): seq<Entry>
  {
    if bs == [] then [] else BlocksEntries(bs[..|bs| - 1]) + BlockEntries(bs[|bs| - 1])
  }

  const VERSION_ENTRY := Entry(VERSION_KEY, VERSION_VALUE)

  function AllEntries(bs: seq<Block>): seq<Entry>
  {
    [VERSION_ENTRY] + BlocksEntries(bs)
  }

  ghost predicate StorableBlock(b: Block)
  {
    b.meta.height < HEIGHT_LIMIT && |b.commits| <= TWO_32
  }

  /** Block lists the layout can hold: strictly increasing heights, positions that fit a uint32. */
  ghost predicate Storable(bs: seq<Block>)
  {
    && (forall i | 0 <= i < |bs| :: StorableBlock(bs[i]))
    && (forall i, j | 0 <= i < j < |bs| :: bs[i].meta.height < bs[j].meta.height)
  }

  /** All heights of `bs` lie below `h`. */
  ghost predicate HeightsBelow(bs: seq<Block>, h: nat)
  {
    forall i | 0 <= i < |bs| :: bs[i].meta.height < h
  }

  /** All heights of `bs` are `h` or more. */
  ghost predicate HeightsFrom(bs: seq<Block>, h: nat)
  {
    forall i | 0 <= i < |bs| :: bs[i].meta.height >= h
  }

  lemma BlockEntriesSorted(b: Block)
    requires StorableBlock(b)
    ensures Sorted(BlockEntries(b))
  {
    var es := BlockEntries(b);
    forall i, j | 0 <= i < j < |es| ensures Less(es[i].key, es[j].key) {
      if i == 0 {
        BlockTagOrder(b.meta.height, b.meta.height, j - 1);
      } else {
        TagOrder(b.meta.height, i - 1, j - 1);
      }
    }
  }

  lemma BlockEntriesBounds(b: Block, h: nat)
    requires b.meta.height < TWO_64 && h < TWO_64
    ensures b.meta.height < h ==> Below(BlockEntries(b), BlockKey(h))
    ensures b.meta.height >= h ==> AtOrAbove(BlockEntries(b), BlockKey(h))
  {
    var es := BlockEntries(b);
    BlockKeyOrder(b.meta.height, h);
    forall i | 0 < i < |es| ensures Less(es[i].key, BlockKey(h)) <==> b.meta.height < h {
      TagBlockOrder(b.meta.height, i - 1, h);
    }
  }

  lemma {:induction false} BlocksEntriesBounds(bs: seq<Block>, h: nat)
    requires Storable(bs) && h < TWO_64
    ensures HeightsBelow(bs, h) ==> Below(BlocksEntries(bs), BlockKey(h))
    ensures HeightsFrom(bs, h) ==> AtOrAbove(BlocksEntries(bs), BlockKey(h))
  {
    if bs != [] {
      BlocksEntriesBounds(bs[..|bs| - 1], h);
      BlockEntriesBounds(bs[|bs| - 1], h);
    }
  }

  lemma {:induction false} BlocksEntriesSorted(bs: seq<Block>)
    requires Storable(bs)
    ensures Sorted(BlocksEntries(bs))
  {
    if bs != [] {
      var n := |bs| - 1;
      BlocksEntriesSorted(bs[..n]);
      BlockEntriesSorted(bs[n]);
      BlocksEntriesBounds(bs[..n], bs[n].meta.height);
      BlockEntriesBounds(bs[n], bs[n].meta.height);
      SortedConcat(BlocksEntries(bs[..n]), BlockEntries(bs[n]), BlockKey(bs[n].meta.height));
    }
  }

  /** The version key sorts before every block and commit key. */
  lemma AllEntriesSorted(bs: seq<Block>)
    requires Storable(bs)
    ensures Sorted(AllEntries(bs))
  {
    BlocksEntriesSorted(bs);
    BlocksEntriesBounds(bs, 0);
    VersionKeyFirst(0);
    SortedConcat([VERSION_ENTRY], BlocksEntries(bs), BlockKey(0));
  }

  /** The store that holds the version and exactly the blocks `bs`. */
  ghost function StoreOf(bs: seq<Block>): (db: Store)
    requires Storable(bs)
  {
    AllEntriesSorted(bs);
    ToStore(AllEntries(bs))
  }

  lemma StoreOfIterate(bs: seq<Block>)
    requires Storable(bs)
    ensures Iterate(StoreOf(bs)) == AllEntries(bs)
  {
    AllEntriesSorted(bs);
    IterateToStore(AllEntries(bs));
  }

  lemma {:induction false} BlocksEntriesSplit(bs: seq<Block>, n: nat)
    requires n <= |bs|
    ensures BlocksEntries(bs) == BlocksEntries(bs[..n]) + BlocksEntries(bs[n..])
    decreases |bs|
  {
    if n == |bs| {
      assert bs[..n] == bs;
    } else {
      var m := |bs| - 1;
      BlocksEntriesSplit(bs[..m], n);
      assert bs[..m][..n] == bs[..n];
      assert bs[n..][..|bs[n..]| - 1] == bs[..m][n..];
      assert bs[n..][|bs[n..]| - 1] == bs[m];
    }
  }

  lemma StorableSlice(bs: seq<Block>, i: nat, j: nat)
    requires Storable(bs) && i <= j <= |bs|
    ensures Storable(bs[i..j])
    ensures forall k | i <= k < j :: bs[i..j][k - i] == bs[k]
  {
  }

  lemma StorableAppend(bs: seq<Block>, b: Block)
    requires Storable(bs) && StorableBlock(b) && HeightsBelow(bs, b.meta.height)
    ensures Storable(bs + [b])
  {
  }

  lemma StorablePrefix(bs: seq<Block>, n: nat)
    requires Storable(bs) && n <= |bs|
    ensures Storable(bs[..n])
  {
  }

  // ---------------------------------------------------------------- storing a block

  /** `db_store_block`: the commits in order, then the metadata. */
  function StoreOps(b: Block): (ops: seq<Op>)
    ensures |ops| == |b.commits| + 1
    ensures AllPuts(ops)
  {
    seq(|b.commits|, i requires 0 <= i < |b.commits| => Put(TagKey(b.meta.height, i), b.commits[i]))
    + [Put(BlockKey(b.meta.height), EncodeMetadata(b.meta))]
  }

  /** Writing a block's batch adds exactly the block's entries. */
  lemma ApplyStoreOps(db: Store, b: Block)
    requires StorableBlock(b)
    ensures Sorted(BlockEntries(b))
    ensures Apply(db, StoreOps(b)) == db + ToStore(BlockEntries(b))
  {
    BlockEntriesSorted(b);
    ApplyPutsRotated(db, StoreOps(b), BlockEntries(b));
  }

  /** Appending a block to a stored list. */
  lemma StoreOfAppend(bs: seq<Block>, b: Block)
    requires Storable(bs + [b])
    ensures Storable(bs) && StorableBlock(b)
    ensures Apply(StoreOf(bs), StoreOps(b)) == StoreOf(bs + [b])
  {
    StorableParts(bs, b);
    AllEntriesAppend(bs, b);
    AllEntriesSorted(bs);
    AllEntriesSorted(bs + [b]);
    BlockEntriesSorted(b);
    hide AllEntries, BlockEntries, StoreOps, Storable, StorableBlock, Sorted, ToStore, Apply;
    ToStoreConcat(AllEntries(bs), BlockEntries(b));
    ApplyStoreOps(StoreOf(bs), b);
  }

  lemma StorableParts(bs: seq<Block>, b: Block)
    requires Storable(bs + [b])
    ensures Storable(bs) && StorableBlock(b) && HeightsBelow(bs, b.meta.height)
  {
    assert forall i | 0 <= i < |bs| :: (bs + [b])[i] == bs[i];
    assert (bs + [b])[|bs|] == b;
  }

  lemma AllEntriesAppend(bs: seq<Block>, b: Block)
    ensures AllEntries(bs + [b]) == AllEntries(bs) + BlockEntries(b)
  {
    assert (bs + [b])[..|bs|] == bs;
    ConcatAssoc([VERSION_ENTRY], BlocksEntries(bs), BlockEntries(b));
  }

  // ---------------------------------------------------------------- cutting a store

  /** The store without any key at or above that of height `h`. */
  function CutFrom(db: Store, h: nat): Store
  {
    map k | k in db && Less(k, BlockKey(h)) :: db[k]
  }

  lemma AllEntriesCut(bs: seq<Block>, n: nat, h: nat)
    requires Storable(bs) && n <= |bs| && h < TWO_64
    requires HeightsBelow(bs[..n], h) && HeightsFrom(bs[n..], h)
    ensures AllEntries(bs) == AllEntries(bs[..n]) + BlocksEntries(bs[n..])
    ensures Below(AllEntries(bs[..n]), BlockKey(h))
    ensures AtOrAbove(BlocksEntries(bs[n..]), BlockKey(h))
  {
    hide BlocksEntries, BlockKey, HeightsBelow, HeightsFrom;
    StorablePrefix(bs, n);
    StorableSlice(bs, n, |bs|);
    hide Storable;
    assert bs[n..|bs|] == bs[n..];
    BlocksEntriesSplit(bs, n);
    ConcatAssoc([VERSION_ENTRY], BlocksEntries(bs[..n]), BlocksEntries(bs[n..]));
    VersionKeyFirst(h);
    BlocksEntriesBounds(bs[..n], h);
    BlocksEntriesBounds(bs[n..], h);
  }

  /** Cutting at a height keeps the version and exactly the blocks below it. */
  lemma StoreOfCut(bs: seq<Block>, n: nat, h: nat)
    requires Storable(bs) && n <= |bs| && h < TWO_64
    requires HeightsBelow(bs[..n], h) && HeightsFrom(bs[n..], h)
    ensures Storable(bs[..n])
    ensures CutFrom(StoreOf(bs), h) == StoreOf(bs[..n])
  {
    StorablePrefix(bs, n);
    AllEntriesCut(bs, n, h);
    AllEntriesSorted(bs);
    AllEntriesSorted(bs[..n]);
    ToStoreCut(AllEntries(bs[..n]), BlocksEntries(bs[n..]), BlockKey(h), CutFrom(StoreOf(bs), h));
  }
}
