/**
 Walks over the store's key space: regrouping a range scan into blocks, the batches that store one block,
 remove one height or remove every height from one on, and the batch that pends for blocks not yet written.
 */
module Scans {
  import opened Bytes
  import opened KeyValue
  import opened Layout

  /** Values are long enough for the decoders: what every scan needs of the store. */
  ghost predicate WellSized(es: seq<Entry>)
  {
    forall i | 0 <= i < |es| ::
      && (|es[i].key| == BLOCK_KEY_LENGTH ==> |es[i].value| >= 96)
      && (|es[i].key| == COMMIT_KEY_LENGTH ==> |es[i].value| >= 32)
  }

  lemma {:induction false} BlocksEntriesWellSized(bs: seq<Block>)
    ensures WellSized(BlocksEntries(bs)) && WellSized(AllEntries(bs))
  {
    if bs != [] {
      BlocksEntriesWellSized(bs[..|bs| - 1]);
    }
  }

  lemma AllEntriesSnoc(bs: seq<Block>)
    requires bs != []
    ensures AllEntries(bs) == AllEntries(bs[..|bs| - 1]) + BlockEntries(bs[|bs| - 1])
  {
  }

  // ---------------------------------------------------------------- grouping a scan into blocks

  /** The loop state of `db_load_blocks`: blocks sent so far, the block being built, and `is_empty`. */
  datatype Grouping = Grouping(sent: seq<Block>, current: Block, isEmpty: bool)

  function GroupStep(g: Grouping, e: Entry): Grouping
    requires |e.key| == BLOCK_KEY_LENGTH ==> |e.value| >= 96
    requires |e.key| == COMMIT_KEY_LENGTH ==> |e.value| >= 32
  {
    if |e.key| == BLOCK_KEY_LENGTH then
      Grouping(g.sent + [g.current], Block(DecodeMetadata(e.key, e.value), []), false)
    else if |e.key| == COMMIT_KEY_LENGTH then
      Grouping(g.sent, Block(g.current.meta, g.current.commits + [DecodeCommit(e.value)]), g.isEmpty)
    else g
  }

  function Group(es: seq<Entry>): Grouping
    requires WellSized(es)
  {
    if es == [] then Grouping([], DUMMY, true) else GroupStep(Group(es[..|es| - 1]), es[|es| - 1])
  }

  function Emitted(g: Grouping): seq<Block>
  {
    if g.isEmpty then g.sent else g.sent + [g.current]
  }

  lemma GroupSnoc(es: seq<Entry>, e: Entry)
    requires WellSized(es + [e])
    ensures WellSized(es) && Group(es + [e]) == GroupStep(Group(es), (es + [e])[|es|])
  {
    assert forall i | 0 <= i < |es| :: es[i] == (es + [e])[i];
    assert (es + [e])[..|es|] == es;
  }

  lemma GroupBlockKey(g: Grouping, m: Metadata)
    requires m.height < TWO_64
    ensures GroupStep(g, Entry(BlockKey(m.height), EncodeMetadata(m)))
         == Grouping(g.sent + [g.current], Block(m, []), false)
  {
    MetadataRoundTrip(m);
  }

  lemma GroupCommitKey(g: Grouping, height: nat, order: nat, c: Hash)
    ensures GroupStep(g, Entry(TagKey(height, order), c))
         == Grouping(g.sent, Block(g.current.meta, g.current.commits + [c]), g.isEmpty)
  {
    assert c[0..32] == c;
  }

  /** Part of a block's entries extends the grouping by the block with that many commits. */
  lemma {:induction false} GroupBlock(a: seq<Entry>, b: Block, n: nat)
    requires WellSized(a) && b.meta.height < TWO_64 && n <= |b.commits|
    ensures WellSized(a + BlockEntries(b)[..n + 1])
    ensures Group(a + BlockEntries(b)[..n + 1])
         == Grouping(Group(a).sent + [Group(a).current], Block(b.meta, b.commits[..n]), false)
  {
    var es := BlockEntries(b);
    var e := es[n];
    var front := a + es[..n];
    TakeSnoc(es, n);
    ConcatAssoc(a, es[..n], [e]);
    if n == 0 {
      assert front == a;
      GroupSnoc(a, e);
      GroupBlockKey(Group(a), b.meta);
    } else {
      GroupBlock(a, b, n - 1);
      var c := b.commits[n - 1];
      assert e == Entry(TagKey(b.meta.height, n - 1), c);
      GroupCommitKey(Group(front), b.meta.height, n - 1, c);
      TakeSnoc(b.commits, n - 1);
      assert WellSized(front + [e]);
      GroupSnoc(front, e);
    }
  }

  lemma GroupWholeBlock(a: seq<Entry>, b: Block)
    requires WellSized(a) && b.meta.height < TWO_64
    ensures WellSized(a + BlockEntries(b))
    ensures Group(a + BlockEntries(b)) == Grouping(Group(a).sent + [Group(a).current], b, false)
  {
    var n := |b.commits|;
    GroupBlock(a, b, n);
    assert BlockEntries(b)[..n + 1] == BlockEntries(b);
    assert b.commits[..n] == b.commits;
  }

  /** Grouping the entries of a block list builds a dummy block and then exactly that list. */
  lemma {:induction false} GroupBlocks(bs: seq<Block>)
    requires forall i | 0 <= i < |bs| :: bs[i].meta.height < TWO_64
    ensures WellSized(BlocksEntries(bs))
    ensures Group(BlocksEntries(bs)).isEmpty <==> bs == []
    ensures Group(BlocksEntries(bs)).sent + [Group(BlocksEntries(bs)).current] == [DUMMY] + bs
  {
    if bs != [] {
      var n := |bs| - 1;
      GroupBlocks(bs[..n]);
      GroupWholeBlock(BlocksEntries(bs[..n]), bs[n]);
      assert bs == bs[..n] + [bs[n]];
    }
  }

  lemma EmittedBlocks(bs: seq<Block>)
    requires Storable(bs)
    ensures WellSized(BlocksEntries(bs))
    ensures Emitted(Group(BlocksEntries(bs))) == if bs == [] then [] else [DUMMY] + bs
  {
    GroupBlocks(bs);
  }

  /** The entries with `lo <= key < hi`: an iterator over a LevelDB range. */
  function InRange(es: seq<Entry>, lo: Bytes, hi: Bytes): seq<Entry>
  {
    if es == [] then [] else
      var e := es[|es| - 1];
      InRange(es[..|es| - 1], lo, hi) + if !Less(e.key, lo) && Less(e.key, hi) then [e] else []
  }

  lemma {:induction false} InRangeWellSized(es: seq<Entry>, lo: Bytes, hi: Bytes)
    requires WellSized(es)
    ensures WellSized(InRange(es, lo, hi))
  {
    if es != [] {
      InRangeWellSized(es[..|es| - 1], lo, hi);
    }
  }

  lemma {:induction false} InRangeConcat(a: seq<Entry>, b: seq<Entry>, lo: Bytes, hi: Bytes)
    ensures InRange(a + b, lo, hi) == InRange(a, lo, hi) + InRange(b, lo, hi)
  {
    if b == [] {
      assert a + b == a;
    } else {
      assert (a + b)[..|a + b| - 1] == a + b[..|b| - 1];
      InRangeConcat(a, b[..|b| - 1], lo, hi);
    }
  }

  lemma {:induction false} InRangeNone(es: seq<Entry>, lo: Bytes, hi: Bytes)
    requires Below(es, lo) || AtOrAbove(es, hi)
    ensures InRange(es, lo, hi) == []
  {
    if es != [] {
      InRangeNone(es[..|es| - 1], lo, hi);
    }
  }

  lemma {:induction false} InRangeAll(es: seq<Entry>, lo: Bytes, hi: Bytes)
    requires AtOrAbove(es, lo) && Below(es, hi)
    ensures InRange(es, lo, hi) == es
  {
    if es != [] {
      InRangeAll(es[..|es| - 1], lo, hi);
    }
  }

  /** The blocks of `bs` with `start <= height <= end`. */
  function Within(bs: seq<Block>, start: nat, end: nat): seq<Block>
  {
    if bs == [] then [] else
      var b := bs[|bs| - 1];
      Within(bs[..|bs| - 1], start, end) + if start <= b.meta.height <= end then [b] else []
  }

  lemma InRangeOneBlock(b: Block, start: nat, end: nat)
    requires b.meta.height < TWO_64 && start < TWO_64 && end + 1 < TWO_64
    ensures InRange(BlockEntries(b), BlockKey(start), BlockKey(end + 1))
         == if start <= b.meta.height <= end then BlockEntries(b) else []
  {
    BlockEntriesBounds(b, start);
    BlockEntriesBounds(b, end + 1);
    if start <= b.meta.height <= end {
      InRangeAll(BlockEntries(b), BlockKey(start), BlockKey(end + 1));
    } else {
      InRangeNone(BlockEntries(b), BlockKey(start), BlockKey(end + 1));
    }
  }

  lemma BlocksEntriesAppend(bs: seq<Block>, b: Block)
    ensures BlocksEntries(bs + [b]) == BlocksEntries(bs) + BlockEntries(b)
  {
    assert (bs + [b])[..|bs|] == bs;
  }

  /** In height order, and exactly the blocks in the range. */
  lemma {:induction false} WithinMembers(bs: seq<Block>, start: nat, end: nat)
    requires Storable(bs)
    ensures Storable(Within(bs, start, end))
    ensures forall b :: b in Within(bs, start, end) <==> b in bs && start <= b.meta.height <= end
  {
    if bs != [] {
      var n := |bs| - 1;
      WithinMembers(bs[..n], start, end);
      var w := Within(bs[..n], start, end);
      assert bs == bs[..n] + [bs[n]];
      forall i | 0 <= i < |w| ensures w[i].meta.height < bs[n].meta.height {
        assert w[i] in w;
      }
    }
  }

  lemma {:induction false} InRangeBlocks(bs: seq<Block>, start: nat, end: nat)
    requires Storable(bs) && start < TWO_64 && end + 1 < TWO_64
    ensures InRange(BlocksEntries(bs), BlockKey(start), BlockKey(end + 1)) == BlocksEntries(Within(bs, start, end))
  {
    if bs != [] {
      var n := |bs| - 1;
      var lo, hi := BlockKey(start), BlockKey(end + 1);
      var w := Within(bs[..n], start, end);
      calc {
        InRange(BlocksEntries(bs), lo, hi);
        { InRangeConcat(BlocksEntries(bs[..n]), BlockEntries(bs[n]), lo, hi); }
        InRange(BlocksEntries(bs[..n]), lo, hi) + InRange(BlockEntries(bs[n]), lo, hi);
        { InRangeBlocks(bs[..n], start, end); }
        BlocksEntries(w) + InRange(BlockEntries(bs[n]), lo, hi);
        { InRangeOneBlock(bs[n], start, end); }
        BlocksEntries(w) + if start <= bs[n].meta.height <= end then BlockEntries(bs[n]) else [];
        { BlocksEntriesAppend(w, bs[n]); assert w + [] == w; }
        BlocksEntries(w + if start <= bs[n].meta.height <= end then [bs[n]] else []);
      }
    }
  }

  lemma InRangeStored(bs: seq<Block>, start: nat, end: nat)
    requires Storable(bs) && start < TWO_64 && end + 1 < TWO_64
    ensures InRange(Iterate(StoreOf(bs)), BlockKey(start), BlockKey(end + 1)) == BlocksEntries(Within(bs, start, end))
  {
    var lo, hi := BlockKey(start), BlockKey(end + 1);
    StoreOfIterate(bs);
    InRangeConcat([VERSION_ENTRY], BlocksEntries(bs), lo, hi);
    VersionKeyFirst(start);
    InRangeNone([VERSION_ENTRY], lo, hi);
    InRangeBlocks(bs, start, end);
  }

  /**
   Storing and scanning: `db_load_blocks` over any height range of a stored list emits
   nothing if no block lies in the range, and otherwise one dummy block followed by exactly
   the blocks in the range, in height order, each with its commits in order.
   */
  lemma ScanStored(bs: seq<Block>, start: nat, end: nat)
    requires Storable(bs) && start < TWO_64 && end + 1 < TWO_64
    ensures var es := InRange(Iterate(StoreOf(bs)), BlockKey(start), BlockKey(end + 1));
            var w := Within(bs, start, end);
            WellSized(es) && Emitted(Group(es)) == if w == [] then [] else [DUMMY] + w
  {
    InRangeStored(bs, start, end);
    WithinMembers(bs, start, end);
    EmittedBlocks(Within(bs, start, end));
  }

  lemma {:induction false} WithinAll(bs: seq<Block>)
    requires Storable(bs)
    ensures Within(bs, 0, HEIGHT_LIMIT - 1) == bs
  {
    if bs != [] {
      WithinAll(bs[..|bs| - 1]);
    }
  }

  /** `db_load_blocks`: the channel is the sequence of blocks sent on it. */
  method LoadBlocks(db: Store, start: nat, end: nat) returns (out: seq<Block>)
    requires start < TWO_64 && end + 1 < TWO_64
    requires WellSized(Iterate(db))
    ensures WellSized(InRange(Iterate(db), BlockKey(start), BlockKey(end + 1)))
    ensures out == Emitted(Group(InRange(Iterate(db), BlockKey(start), BlockKey(end + 1))))
    ensures out != [] ==> out[0].meta == Metadata(0, Zeros(32), Zeros(32), Zeros(32))
  {
    var es := InRange(Iterate(db), BlockKey(start), BlockKey(end + 1));
    InRangeWellSized(Iterate(db), BlockKey(start), BlockKey(end + 1));
    var block, isEmpty := DUMMY, true;
    out := [];
    for i := 0 to |es|
      invariant Grouping(out, block, isEmpty) == Group(es[..i])
      invariant (isEmpty <==> out == []) && (if out == [] then block else out[0]).meta == Metadata(0, Zeros(32), Zeros(32), Zeros(32))
    {
      var key, value := es[i].key, es[i].value;
      assert es[..i + 1][..i] == es[..i];
      if |key| == BLOCK_KEY_LENGTH {
        out := out + [block];
        isEmpty := false;
        block := Block(DecodeMetadata(key, value), []);
      } else if |key| == COMMIT_KEY_LENGTH {
        block := block.(commits := block.commits + [DecodeCommit(value)]);
      }
    }
    assert es[..|es|] == es;
    if !isEmpty {
      out := out + [block];
    }
  }

  // ---------------------------------------------------------------- removing blocks

  predicate HasPrefix(k: Bytes, p: Bytes)
  {
    |p| <= |k| && k[..|p|] == p
  }

  /** `db_remove_block`: one delete for each stored key of that height. Only the store is consulted. */
  function RemoveOps(es: seq<Entry>, p: Bytes): seq<Op>
  {
    if es == [] then [] else
      var e := es[|es| - 1];
      RemoveOps(es[..|es| - 1], p) + if HasPrefix(e.key, p) then [Delete(e.key)] else []
  }

  lemma HasKeySnoc(es: seq<Entry>, k: Bytes)
    requires es != []
    ensures HasKey(es, k) <==> k == es[|es| - 1].key || HasKey(es[..|es| - 1], k)
  {
    var n := |es| - 1;
    if i :| 0 <= i < |es| && es[i].key == k {
      assert i == n || es[..n][i].key == k;
    }
    if i :| 0 <= i < n && es[..n][i].key == k {
      assert es[i].key == k;
    }
  }

  lemma {:induction false} RemoveOpsKeys(es: seq<Entry>, p: Bytes, k: Bytes)
    ensures AllDeletes(RemoveOps(es, p))
    ensures k in KeysOf(RemoveOps(es, p)) <==> HasPrefix(k, p) && HasKey(es, k)
  {
    if es != [] {
      var n := |es| - 1;
      var r, e := RemoveOps(es[..n], p), es[n];
      RemoveOpsKeys(es[..n], p, k);
      HasKeySnoc(es, k);
      if HasPrefix(e.key, p) {
        var r' := r + [Delete(e.key)];
        KeysOfSnoc(r');
        assert r'[..|r'| - 1] == r && RemoveOps(es, p) == r';
      } else {
        assert r + [] == r && RemoveOps(es, p) == r;
      }
    }
  }

  /** The batch `db_process_block` builds for blocks not yet written: each removal looks at the store only. */
  function PendingOps(db: Store, bs: seq<Block>): seq<Op>
  {
    if bs == [] then [] else
      var b := bs[|bs| - 1];
      PendingOps(db, bs[..|bs| - 1]) + RemoveOps(Iterate(db), BlockKey(b.meta.height)) + StoreOps(b)
  }

  lemma PendingOpsAppend(db: Store, bs: seq<Block>, b: Block)
    ensures PendingOps(db, bs + [b]) == PendingOps(db, bs) + RemoveOps(Iterate(db), BlockKey(b.meta.height)) + StoreOps(b)
  {
    hide RemoveOps, StoreOps;
    assert (bs + [b])[..|bs|] == bs;
  }

  lemma RemoveOpsSnoc(es: seq<Entry>, e: Entry, p: Bytes)
    ensures RemoveOps(es + [e], p)
         == RemoveOps(es, p) + if HasPrefix(e.key, p) then [Delete(e.key)] else []
  {
    assert (es + [e])[..|es|] == es;
  }

  method RemoveBlock(db: Store, batch: seq<Op>, h: nat) returns (batch': seq<Op>)
    ensures batch' == batch + RemoveOps(Iterate(db), BlockKey(h))
  {
    var es, p := Iterate(db), BlockKey(h);
    batch' := batch;
    ghost var removed: seq<Op> := [];
    for i := 0 to |es|
      invariant removed == RemoveOps(es[..i], p)
      invariant batch' == batch + removed
    {
      RemoveOpsSnoc(es[..i], es[i], p);
      TakeSnoc(es, i);
      if HasPrefix(es[i].key, p) {
        ConcatAssoc(batch, removed, [Delete(es[i].key)]);
        batch' := batch' + [Delete(es[i].key)];
        removed := removed + [Delete(es[i].key)];
      }
    }
    assert es[..|es|] == es;
  }

  method StoreBlock(batch: seq<Op>, block: Block) returns (batch': seq<Op>)
    ensures batch' == batch + StoreOps(block)
  {
    batch' := batch;
    var order := 0;
    for i := 0 to |block.commits|
      invariant order == i % TWO_32
      invariant batch' == batch + StoreOps(block)[..i]
    {
      batch' := batch' + [Put(TagKey(block.meta.height, order), block.commits[i])];
      assert TagKey(block.meta.height, order) == TagKey(block.meta.height, i);
      assert StoreOps(block)[..i + 1] == StoreOps(block)[..i] + [StoreOps(block)[i]];
      order := (order + 1) % TWO_32;
    }
    batch' := batch' + [Put(BlockKey(block.meta.height), EncodeMetadata(block.meta))];
    assert StoreOps(block) == StoreOps(block)[..|block.commits|] + [StoreOps(block)[|block.commits|]];
  }

  /** `db_process_block`: what joins the batch for one block. */
  method AddBlock(db: Store, batch: seq<Op>, block: Block) returns (batch': seq<Op>)
    ensures batch' == batch + RemoveOps(Iterate(db), BlockKey(block.meta.height)) + StoreOps(block)
  {
    batch' := RemoveBlock(db, batch, block.meta.height);
    batch' := StoreBlock(batch', block);
  }

  /** The deletes `db_remove_blocks_after` collects: from the first key at or above the height to the end. */
  method RemoveAfterBatch(db: Store, h: nat) returns (batch: seq<Op>)
    ensures Apply(db, batch) == CutFrom(db, h)
  {
    var es := Iterate(db);
    var i := 0;
    while i < |es| && Less(es[i].key, BlockKey(h))
      invariant i <= |es|
      invariant Below(es[..i], BlockKey(h))
    {
      i := i + 1;
    }
    ghost var seek := i;
    batch := [];
    while i < |es|
      invariant seek <= i <= |es|
      invariant |batch| == i - seek
      invariant forall j | 0 <= j < |batch| :: batch[j] == Delete(es[seek + j].key)
    {
      batch := batch + [Delete(es[i].key)];
      i := i + 1;
    }
    SuffixDeletes(db, es, seek, h, batch);
  }

  lemma SuffixDeletes(db: Store, es: seq<Entry>, seek: nat, h: nat, batch: seq<Op>)
    requires es == Iterate(db) && seek <= |es| && Below(es[..seek], BlockKey(h))
    requires seek < |es| ==> !Less(es[seek].key, BlockKey(h))
    requires |batch| == |es| - seek
    requires forall j | 0 <= j < |batch| :: batch[j] == Delete(es[seek + j].key)
    ensures Apply(db, batch) == CutFrom(db, h)
  {
    ApplyDeletes(db, batch);
    forall i | 0 <= i < |es| ensures Less(es[i].key, BlockKey(h)) <==> i < seek {
      if i < seek {
        assert es[..seek][i] == es[i];
      } else if i > seek && Less(es[i].key, BlockKey(h)) {
        LessTransitive(es[seek].key, es[i].key, BlockKey(h));
      }
    }
    forall k | k in db ensures k in KeysOf(batch) <==> !Less(k, BlockKey(h)) {
      IterateComplete(db, k);
      var i :| 0 <= i < |es| && es[i].key == k;
      if i >= seek {
        assert batch[i - seek].key == k;
      }
    }
  }

  /** Suffix deletion leaves the version key of any store alone. */
  lemma CutKeepsVersion(db: Store, h: nat)
    requires VERSION_KEY in db
    ensures VERSION_KEY in CutFrom(db, h) && CutFrom(db, h)[VERSION_KEY] == db[VERSION_KEY]
  {
    VersionKeyFirst(h);
  }
}
