/**
 The handler of a corrupted load unlocks before it deletes, so syncing can start on a node whose
 store still holds the corrupted blocks. This module follows the node through that window, up to a
 deletion that comes after any number of blocks and flushes.
 */
module LateRecovery {
  import opened Wrappers
  import opened Bytes
  import opened KeyValue
  import opened Layout
  import opened Scans
  import opened Lookups
  import opened Pending
  import opened ChainState
  import opened Step
  import opened Miner
  import opened Runs

  /**
   Memory and libcomb hold `bs`. The store holds its first `k` blocks and above them `leftover`, corrupted
   blocks that have not been deleted yet; the batch is that of the rest of `bs`.
   */
  ghost predicate Racing(cp: Checkpoint, digest: Bytes -> Hash, st: State, bs: seq<Block>, k: nat, leftover: seq<Block>)
  {
    && Linked(cp, bs) && Authentic(digest, bs) && k <= |bs|
    && MemoryHolds(cp, st, bs)
    && Storable(bs[..k] + leftover) && HeightsFrom(leftover, cp.height + 1)
    && st.db == StoreOf(bs[..k] + leftover)
    && st.batch == PendingOps(st.db, bs[k..])
    && st.cached == |bs| - k
  }

  /** Memory, libcomb and the store behind its batch hold the linked list `bs`, however the batch came about. */
  ghost predicate ViewsAgree(cp: Checkpoint, st: State, bs: seq<Block>)
  {
    && Linked(cp, bs) && MemoryHolds(cp, st, bs)
    && Storable(bs) && Apply(st.db, st.batch) == StoreOf(bs)
  }

  // ---------------------------------------------------------------- block lists as the store sees them

  lemma SplitAt<T>(s: seq<T>, n: nat)
    requires n <= |s|
    ensures s[..n] + s[n..] == s && s[..n][..n] == s[..n] && s[..n][n..] == []
    ensures s[..|s|] == s && s[|s|..] == []
  {
  }

  lemma HeightsAbove(bs: seq<Block>, n: nat)
    requires Storable(bs) && n < |bs|
    ensures HeightsFrom(bs[n..], bs[n].meta.height)
  {
    assert forall i | 0 <= i < |bs[n..]| :: bs[n..][i] == bs[n + i];
  }

  /** `bs` with the blocks between `p` and `k` taken out. */
  lemma StorableWithout(cp: Checkpoint, bs: seq<Block>, p: nat, k: nat)
    requires Linked(cp, bs) && p <= k <= |bs|
    ensures Storable(bs[..p]) && Storable(bs[..p] + bs[k..]) && Storable(bs)
    ensures bs[..k] + bs[k..] == bs
    ensures HeightsBelow(bs[..p], cp.height + p + 1)
  {
    LinkedStorable(cp, bs);
    StorableSlice(bs, 0, p);
    StorableSlice(bs, k, |bs|);
    assert bs[0..p] == bs[..p] && bs[k..|bs|] == bs[k..];
    StorableConcat(bs[..p], bs[k..]);
  }

  /** The leftover blocks a flush overwrites lie at heights it writes; the others lie above. */
  lemma OverwrittenHeights(cp: Checkpoint, bs: seq<Block>, k: nat, leftover: seq<Block>) returns (m: nat)
    requires Linked(cp, bs) && k <= |bs| && Storable(bs[..k] + leftover) && HeightsFrom(leftover, cp.height + 1)
    ensures m <= |leftover| && HeightsFrom(leftover[m..], cp.height + 1)
    ensures forall i | 0 <= i < m :: HasHeight(bs[k..], leftover[i].meta.height)
    ensures Storable(bs + leftover[m..])
    ensures m < |leftover| ==> leftover[m].meta.height > cp.height + |bs|
  {
    StorableConcat(bs[..k], leftover);
    m := FirstFrom(leftover, cp.height + |bs| + 1);
    forall i | 0 <= i < m ensures HasHeight(bs[k..], leftover[i].meta.height) {
      var h := leftover[i].meta.height;
      assert leftover[..m][i] == leftover[i];
      assert k > 0 ==> bs[..k][k - 1].meta.height < h;
      assert bs[k..][h - cp.height - 1 - k].meta.height == h;
    }
    LinkedStorable(cp, bs);
    StorableSlice(leftover, m, |leftover|);
    assert leftover[m..|leftover|] == leftover[m..];
    assert forall i | 0 <= i < |leftover[m..]| :: leftover[m..][i] == leftover[m + i];
    StorableConcat(bs, leftover[m..]);
  }

  /** What the batch does to the store, however much of it is left: the blocks of `bs` from `k` on take their places. */
  lemma BatchOnRest(cp: Checkpoint, digest: Bytes -> Hash, st: State, bs: seq<Block>, k: nat, leftover: seq<Block>,
                    p: nat)
    requires Racing(cp, digest, st, bs, k, leftover) && p <= k
    ensures Storable(bs[..p]) && Storable(bs[..p] + bs[k..])
    ensures StoreOf(bs[..p]).Keys <= st.db.Keys ==> Apply(StoreOf(bs[..p]), st.batch) == StoreOf(bs[..p] + bs[k..])
  {
    StorableWithout(cp, bs, p, k);
    hide Storable, Linked, Apply, StoreOf, PendingOps;
    var a, c := bs[..p], bs[k..];
    assert a + [] + [] == a && a + c + [] == a + c;
    if StoreOf(a).Keys <= st.db.Keys {
      PendingOnBlocks(st.db, a, [], [], c);
    }
  }

  // ---------------------------------------------------------------- the window

  /** Without leftovers this is agreement. */
  lemma RacingWithoutLeftovers(cp: Checkpoint, digest: Bytes -> Hash, st: State, bs: seq<Block>, k: nat)
    ensures Agree(cp, digest, st, bs, k) <==> Racing(cp, digest, st, bs, k, []) && st.cached < BATCH_CAPACITY
  {
    if k <= |bs| {
      assert bs[..k] + [] == bs[..k];
      hide Linked, Authentic, MemoryHolds, Apply, StoreOf;
      if Racing(cp, digest, st, bs, k, []) {
        StorableWithout(cp, bs, k, k);
        hide Storable, PendingOps;
        BatchOnRest(cp, digest, st, bs, k, [], k);
      }
    }
  }

  /** The window opens where the goroutine of `db_load` unlocks after a bad fingerprint. */
  lemma WindowOpens(cp: Checkpoint, digest: Bytes -> Hash, st: State, found: seq<Block>, n: nat)
    requires n < |found| && CorruptAt(cp, digest, found, n) && LoadedPrefix(cp, digest, st, found, n)
    requires Storable(found) && st.db == StoreOf(found) && st.batch == [] && st.cached == 0
    requires found[n].meta.height > cp.height
    ensures Racing(cp, digest, st, found[..n], n, found[n..]) && HeightsFrom(found[n..], found[n].meta.height)
  {
    HeightsAbove(found, n);
    hide Storable, StoreOf, Authentic, Chained, ChainHolds, DistinctHashes, HashAt;
    SplitAt(found, n);
    FoundTip(cp, found, n);
  }

  /** A fresh block on the tip, before the capacity check: the window stays open. */
  lemma WindowExtends(cp: Checkpoint, digest: Bytes -> Hash, st: State, bs: seq<Block>, k: nat, leftover: seq<Block>,
                      bd: BlockData)
    requires Racing(cp, digest, st, bs, k, leftover)
    requires cp.height + |bs| + 1 < HEIGHT_LIMIT && |bd.commits| <= TWO_32
    requires bd.previous == st.hash && Fresh(cp, bs, bd.hash)
    ensures Racing(cp, digest, Extended(digest, st, bd), bs + [NewBlock(digest, bd, cp.height + |bs| + 1)], k, leftover)
  {
    hide Linked, Storable, StoreOf, ChainHolds, StoreOps, RemoveOps, Authentic, Fresh, CommitLists, Fingerprint,
         PendingOps, HeightsFrom;
    var b := NewBlock(digest, bd, st.height + 1);
    var bs' := bs + [b];
    LinkedAppend(cp, bs, b);
    AuthenticAppend(digest, bs, b);
    assert bs'[..k] == bs[..k] && bs'[k..] == bs[k..] + [b];
    PendingOpsAppend(st.db, bs[k..], b);
    ChainExtend(st.chain, cp, bs, b);
    HashAtAppend(cp, bs, b);
    CommitListsAppend(bs, b);
  }

  /** A flush overwrites the leftovers at the heights it writes; those above stay. */
  lemma WindowFlushes(cp: Checkpoint, digest: Bytes -> Hash, st: State, bs: seq<Block>, k: nat, leftover: seq<Block>)
    returns (m: nat)
    requires Racing(cp, digest, st, bs, k, leftover)
    ensures m <= |leftover| && Racing(cp, digest, Flushed(st), bs, |bs|, leftover[m..])
    ensures m < |leftover| ==> leftover[m].meta.height > cp.height + |bs|
  {
    m := OverwrittenHeights(cp, bs, k, leftover);
    hide Linked, Authentic, MemoryHolds, HeightsFrom;
    var a, over, after, c := bs[..k], leftover[..m], leftover[m..], bs[k..];
    SplitAt(bs, k);
    SplitAt(leftover, m);
    ConcatAssoc(a, over, after);
    assert forall i | 0 <= i < |over| :: HasHeight(c, over[i].meta.height);
    hide Storable, StoreOf, Apply, HasHeight;
    PendingOnBlocks(st.db, a, over, after, c);
  }

  /** One call of `neominer_process_block` with a fresh block on the tip. */
  lemma WindowStep(cp: Checkpoint, digest: Bytes -> Hash, st: State, bs: seq<Block>, k: nat, leftover: seq<Block>,
                   bd: BlockData)
    returns (k': nat, m: nat)
    requires Racing(cp, digest, st, bs, k, leftover)
    requires cp.height + |bs| + 1 < HEIGHT_LIMIT && |bd.commits| <= TWO_32
    requires bd.previous == st.hash && Fresh(cp, bs, bd.hash)
    ensures k' == OnDisk(st, |bs|, k) && m <= |leftover|
    ensures Racing(cp, digest, Ingested(digest, st, bd), bs + [NewBlock(digest, bd, cp.height + |bs| + 1)], k', leftover[m..])
  {
    WindowExtends(cp, digest, st, bs, k, leftover, bd);
    hide Racing, Extended, Apply, NewBlock;
    k', m := k, 0;
    if st.cached + 1 >= BATCH_CAPACITY {
      ExtendedCount(digest, st, bd);
      k' := |bs| + 1;
      m := WindowFlushes(cp, digest, Extended(digest, st, bd), bs + [NewBlock(digest, bd, cp.height + |bs| + 1)], k, leftover);
    } else {
      ExtendedCount(digest, st, bd);
      assert leftover[0..] == leftover;
    }
  }

  lemma ExtendedCount(digest: Bytes -> Hash, st: State, bd: BlockData)
    ensures Extended(digest, st, bd).cached == st.cached + 1
  {
  }

  /** A reorg to a block of the chain whose hash no leftover has finds it, drops every leftover and closes the window. */
  lemma WindowReorg(cp: Checkpoint, digest: Bytes -> Hash, st: State, bs: seq<Block>, leftover: seq<Block>, j: nat)
    requires Racing(cp, digest, st, bs, |bs|, leftover) && 0 < j <= |bs|
    requires forall i | 0 <= i < |leftover| :: leftover[i].meta.hash != bs[j - 1].meta.hash
    ensures WellSized(Iterate(st.db)) && ScanBack(Iterate(st.db), HashAt(cp, bs, j), NO_BLOCK) == bs[j - 1].meta
    ensures |st.lib| == |bs| && Agree(cp, digest, Rewound(cp, st, bs, j, j), bs[..j], j)
  {
    hide Linked, Storable, StoreOf, Agree, CutFrom, Authentic, HeightsFrom, Iterate, WellSized, ScanBack, HashAt,
         MemoryHolds;
    SplitAt(bs, j);
    ReorgFinds(cp, bs, leftover, j);
    ReorgCuts(cp, bs, leftover, j);
    CutStore(cp, bs, j);
    WithoutLeftovers(cp, digest, st, bs, leftover);
    AgreeRewind(cp, digest, st.(db := StoreOf(bs)), bs, j);
  }

  /** On a flushed node nothing but the leftovers stands between it and agreement. */
  lemma WithoutLeftovers(cp: Checkpoint, digest: Bytes -> Hash, st: State, bs: seq<Block>, leftover: seq<Block>)
    requires Racing(cp, digest, st, bs, |bs|, leftover)
    ensures |st.lib| == |bs| && Storable(bs) && Agree(cp, digest, st.(db := StoreOf(bs)), bs, |bs|)
  {
    LinkedStorable(cp, bs);
    SplitAt(bs, |bs|);
    hide Linked, Storable, StoreOf, Authentic, HeightsFrom, ChainHolds;
    ApplyNothing(StoreOf(bs));
  }

  lemma ReorgFinds(cp: Checkpoint, bs: seq<Block>, leftover: seq<Block>, j: nat)
    requires Linked(cp, bs) && Storable(bs + leftover) && 0 < j <= |bs|
    requires forall i | 0 <= i < |leftover| :: leftover[i].meta.hash != bs[j - 1].meta.hash
    ensures WellSized(Iterate(StoreOf(bs + leftover)))
    ensures ScanBack(Iterate(StoreOf(bs + leftover)), HashAt(cp, bs, j), NO_BLOCK) == bs[j - 1].meta
  {
    DistinctFrom(cp, bs, j);
    hide Linked, Storable, StoreOf, Iterate, WellSized, ScanBack;
    var all := bs + leftover;
    StoredLookup(all, HashAt(cp, bs, j));
    FindByHashHit(all, j - 1, NO_BLOCK);
  }

  lemma ReorgCuts(cp: Checkpoint, bs: seq<Block>, leftover: seq<Block>, j: nat)
    requires Linked(cp, bs) && Storable(bs + leftover) && 0 < j <= |bs|
    ensures Storable(bs[..j]) && CutFrom(StoreOf(bs + leftover), cp.height + j + 1) == StoreOf(bs[..j])
  {
    hide Storable, StoreOf, CutFrom, Linked, HeightsBelow;
    var all, h := bs + leftover, cp.height + j + 1;
    assert all[..j] == bs[..j] && all[j - 1] == bs[j - 1];
    LinkedHeights(cp, bs, j);
    LinkedHeight(cp, bs, j - 1);
    if j < |all| {
      NextHeight(all, j);
      HeightsAbove(all, j);
      assert all[j].meta.height >= h;
    }
    assert HeightsFrom(all[j..], h);
    StoreOfCut(all, j, h);
  }

  lemma NextHeight(bs: seq<Block>, j: nat)
    requires Storable(bs) && 0 < j < |bs|
    ensures bs[j - 1].meta.height < bs[j].meta.height
  {
  }

  lemma DistinctFrom(cp: Checkpoint, bs: seq<Block>, j: nat)
    requires Linked(cp, bs) && 0 < j <= |bs|
    ensures forall i | j <= i < |bs| :: bs[i].meta.hash != bs[j - 1].meta.hash
  {
    assert HashAt(cp, bs, j) == bs[j - 1].meta.hash;
    assert forall i | j <= i < |bs| :: HashAt(cp, bs, i + 1) == bs[i].meta.hash;
  }

  // ---------------------------------------------------------------- the deletion

  /** Number of blocks of `bs[..k]` below the height the handler deletes from. */
  function Survivors(cp: Checkpoint, k: nat, h: nat): (p: nat)
    requires h > cp.height
    ensures p <= k
  {
    if cp.height + k < h then k else h - cp.height - 1
  }

  /** What the late deletion leaves of the store, and what the batch would make of it. */
  lemma LateStore(cp: Checkpoint, digest: Bytes -> Hash, st: State, bs: seq<Block>, k: nat, leftover: seq<Block>,
                  h: nat)
    requires Racing(cp, digest, st, bs, k, leftover) && HeightsFrom(leftover, h) && cp.height < h < TWO_64
    ensures var p := Survivors(cp, k, h);
            && Storable(bs[..p]) && CutFrom(st.db, h) == StoreOf(bs[..p])
            && Storable(bs[..p] + bs[k..]) && Apply(CutFrom(st.db, h), st.batch) == StoreOf(bs[..p] + bs[k..])
  {
    hide Linked, Storable, StoreOf, Authentic, MemoryHolds, Apply, HeightsFrom, HeightsBelow, PendingOps;
    var p := Survivors(cp, k, h);
    StorableWithout(cp, bs, p, k);
    BatchOnRest(cp, digest, st, bs, k, leftover, p);
    CutLeftovers(cp, bs, k, leftover, h);
  }

  lemma CutLeftovers(cp: Checkpoint, bs: seq<Block>, k: nat, leftover: seq<Block>, h: nat)
    requires Linked(cp, bs) && k <= |bs| && Storable(bs[..k] + leftover) && HeightsFrom(leftover, h) && cp.height < h < TWO_64
    ensures var p := Survivors(cp, k, h);
            Storable(bs[..p]) && CutFrom(StoreOf(bs[..k] + leftover), h) == StoreOf(bs[..p])
  {
    var p, all := Survivors(cp, k, h), bs[..k] + leftover;
    assert all[..p] == bs[..p];
    forall i | 0 <= i < |all[p..]| ensures all[p..][i].meta.height >= h {
      assert all[p..][i] == if p + i < k then bs[p + i] else leftover[p + i - k];
    }
    hide Storable, StoreOf, CutFrom;
    StorableWithout(cp, bs, p, k);
    StoreOfCut(all, p, h);
  }

  /**
   The deletion of everything from the corrupted height `h` on, whenever it comes: the three views agree on
   some chain afterwards exactly if every block the node has flushed lies below `h`.
   */
  lemma LateHandler(cp: Checkpoint, digest: Bytes -> Hash, st: State, bs: seq<Block>, k: nat, leftover: seq<Block>,
                    h: nat)
    requires Racing(cp, digest, st, bs, k, leftover) && HeightsFrom(leftover, h) && cp.height < h < TWO_64
    ensures (exists bs' :: ViewsAgree(cp, st.(db := CutFrom(st.db, h)), bs')) <==> cp.height + k < h
  {
    hide Racing, Linked, Storable, StoreOf, Apply, ChainHolds, CutFrom, HeightsFrom;
    var p, st' := Survivors(cp, k, h), st.(db := CutFrom(st.db, h));
    LateStore(cp, digest, st, bs, k, leftover, h);
    RacingMemory(cp, digest, st, bs, k, leftover);
    if p == k {
      SplitAt(bs, k);
      assert ViewsAgree(cp, st', bs);
    } else {
      OnlyStored(cp, st', bs[..p] + bs[k..]);
    }
  }

  lemma RacingMemory(cp: Checkpoint, digest: Bytes -> Hash, st: State, bs: seq<Block>, k: nat, leftover: seq<Block>)
    requires Racing(cp, digest, st, bs, k, leftover)
    ensures Linked(cp, bs) && MemoryHolds(cp, st, bs) && k <= |bs| == |st.lib|
  {
  }

  /** The views agree on nothing if libcomb holds another number of blocks than the store behind its batch. */
  lemma OnlyStored(cp: Checkpoint, st: State, ls: seq<Block>)
    requires Storable(ls) && Apply(st.db, st.batch) == StoreOf(ls) && |st.lib| != |ls|
    ensures !exists bs :: ViewsAgree(cp, st, bs)
  {
    hide Storable, StoreOf, Apply, Linked, ChainHolds;
    forall bs | ViewsAgree(cp, st, bs) ensures false {
      StoreOfInjective(bs, ls);
    }
  }

  // ---------------------------------------------------------------- a run

  /**
   Loading stops at a bad fingerprint and unlocks; a sync stores one block on the tip; only then the
   handler deletes, and the stored block is gone while memory keeps it.
   */
  method LoseBlock(cp: Checkpoint, digest: Bytes -> Hash, stored: Store, a: BlockData, ghost found: seq<Block>, ghost n: nat)
    returns (node: Node, panicked: Option<nat>)
    requires Storable(found) && stored == StoreOf(found) && n < |found| && CorruptAt(cp, digest, found, n)
    requires found[n].meta.height == cp.height + n + 1 && cp.height + n + 3 < HEIGHT_LIMIT
    requires |a.commits| <= TWO_32 && a.previous == HashAt(cp, found, n) && Fresh(cp, found[..n], a.hash)
    ensures fresh(node) && node.cp == cp && node.digest == digest && panicked == Some(cp.height + n + 1)
    ensures node.hash == a.hash && node.height == cp.height + n + 1 == cp.height + |node.lib|
    ensures Storable(found[..n]) && node.db == StoreOf(found[..n]) && node.batch == [] && node.cached == 0
  {
    hide Racing, Linked, Storable, StoreOf, CorruptAt, LoadedPrefix, HeightsFrom, Ingested, NewBlock, CutFrom, Apply,
         Chained, Authentic, NoZeroHash, Fresh, HashAt;
    node := new Node.Open(cp, digest, stored);
    var count;
    panicked, count := node.Replay(found);
    ghost var st0, h := node.Snap(), cp.height + n + 1;
    WindowOpens(cp, digest, st0, found, n);
    RacingTop(cp, digest, st0, found[..n], n, found[n..]);
    FoundTip(cp, found, n);
    node.Ingest(a);
    ghost var k', m := WindowStep(cp, digest, st0, found[..n], n, found[n..], a);
    ghost var bs, st1 := found[..n] + [NewBlock(digest, a, h)], node.Snap();
    node.Write();
    ghost var m' := WindowFlushes(cp, digest, st1, bs, k', found[n..][m..]);
    ghost var st2, leftover := node.Snap(), found[n..][m..][m'..];
    RacingTop(cp, digest, st2, bs, n + 1, leftover);
    SnocTip(cp, digest, found[..n], a, h);
    HeightsFromSuffix(found[n..], m, h);
    HeightsFromSuffix(found[n..][m..], m', h);
    LateStore(cp, digest, st2, bs, n + 1, leftover, h);
    var _ := node.Recover(panicked.value);
    assert bs[..n] == found[..n];
  }

  /** The next sync stores the block after the lost one, and from then on no restart succeeds. */
  method LateRecoveryRun(cp: Checkpoint, digest: Bytes -> Hash, stored: Store, a: BlockData, b: BlockData,
                         ghost found: seq<Block>, ghost n: nat)
    returns (panicked: Option<nat>, deleted: Store, restart: Outcome)
    requires Storable(found) && stored == StoreOf(found) && n < |found| && CorruptAt(cp, digest, found, n)
    requires found[n].meta.height == cp.height + n + 1 && cp.height + n + 3 < HEIGHT_LIMIT
    requires |a.commits| <= TWO_32 && a.previous == HashAt(cp, found, n) && Fresh(cp, found[..n], a.hash)
    requires |b.commits| <= TWO_32 && b.previous == a.hash && b.hash != ZERO
    ensures panicked == Some(cp.height + n + 1)
    ensures Storable(found[..n]) && deleted == StoreOf(found[..n])
    ensures restart != Done
  {
    hide Linked, Storable, StoreOf, CorruptAt, Ingested, NewBlock, Apply, Chained, Authentic, NoZeroHash, Fresh, HashAt;
    var node;
    node, panicked := LoseBlock(cp, digest, stored, a, found, n);
    deleted := node.db;
    GapStore(cp, digest, node.Snap(), found, n, b);
    node.Ingest(b);
    node.Write();
    var again := new Node.Open(cp, digest, node.db);
    var count;
    restart, count := again.Load(found[..n] + [NewBlock(digest, b, cp.height + n + 2)]);
  }

  lemma RacingTop(cp: Checkpoint, digest: Bytes -> Hash, st: State, bs: seq<Block>, k: nat, leftover: seq<Block>)
    requires Racing(cp, digest, st, bs, k, leftover)
    ensures st.hash == Tip(cp, bs) && st.height == cp.height + |bs| == cp.height + |st.lib|
  {
  }

  lemma FoundTip(cp: Checkpoint, found: seq<Block>, n: nat)
    requires n <= |found|
    ensures Tip(cp, found[..n]) == HashAt(cp, found, n)
  {
  }

  lemma SnocTip(cp: Checkpoint, digest: Bytes -> Hash, bs: seq<Block>, bd: BlockData, h: nat)
    ensures Tip(cp, bs + [NewBlock(digest, bd, h)]) == bd.hash
  {
  }

  lemma HeightsFromSuffix(bs: seq<Block>, m: nat, h: nat)
    requires HeightsFrom(bs, h) && m <= |bs|
    ensures HeightsFrom(bs[m..], h)
  {
  }

  /** A block stored on top of a missing one: the store holds a list with a gap, which is no chain. */
  lemma GapStore(cp: Checkpoint, digest: Bytes -> Hash, st: State, found: seq<Block>, n: nat, b: BlockData)
    requires n < |found| && CorruptAt(cp, digest, found, n) && Storable(found[..n])
    requires st.height == cp.height + n + 1 && st.batch == [] && cp.height + n + 3 < HEIGHT_LIMIT
    requires |b.commits| <= TWO_32 && b.hash != ZERO
    ensures var left := found[..n] + [NewBlock(digest, b, cp.height + n + 2)];
            var st' := Ingested(digest, st.(db := StoreOf(found[..n])), b);
            && Storable(left) && Apply(st'.db, st'.batch) == StoreOf(left)
            && NoZeroHash(left, |left|) && Authentic(digest, left) && !Chained(cp, left)
  {
    hide Linked, Storable, StoreOf, Authentic, Apply, Ingested, Chained, NoZeroHash, Fingerprint;
    var bs := found[..n];
    GapFacts(cp, digest, bs, NewBlock(digest, b, cp.height + n + 2));
    hide NewBlock;
    StoredNext(digest, st.(db := StoreOf(bs)), bs, b);
  }

  /** A block on a flushed store. */
  lemma StoredNext(digest: Bytes -> Hash, st: State, bs: seq<Block>, b: BlockData)
    requires Storable(bs) && st.db == StoreOf(bs) && st.batch == [] && Storable(bs + [NewBlock(digest, b, st.height + 1)])
    ensures var st' := Ingested(digest, st, b);
            Apply(st'.db, st'.batch) == StoreOf(bs + [NewBlock(digest, b, st.height + 1)])
  {
    hide Storable, StoreOf, Apply, Ingested, NewBlock;
    SplitAt(bs, |bs|);
    ApplyNothing(StoreOf(bs));
    IngestedStore(digest, st, bs, |bs|, b);
  }

  lemma GapFacts(cp: Checkpoint, digest: Bytes -> Hash, bs: seq<Block>, b: Block)
    requires Linked(cp, bs) && Authentic(digest, bs) && |b.commits| <= TWO_32 && b.meta.hash != ZERO
    requires b.meta.fingerprint == Fingerprint(digest, b.commits) && b.meta.height == cp.height + |bs| + 2 < HEIGHT_LIMIT
    ensures var left := bs + [b];
            Storable(left) && NoZeroHash(left, |left|) && Authentic(digest, left) && !Chained(cp, left)
  {
    var left := bs + [b];
    assert left[|bs|] == b && bs[..|bs|] == bs;
    LinkedHeights(cp, bs, |bs|);
    LinkedFacts(cp, bs);
    StorableAppend(bs, b);
    hide Linked, Storable;
    AuthenticAppend(digest, bs, b);
  }
}
