/**
 One call of `neominer_process_block` as a change of state, and the exact condition under which it
 keeps the three views of the chain in agreement.
 */
module Step {
  import opened Bytes
  import opened KeyValue
  import opened Layout
  import opened Scans
  import opened ChainState

  // ---------------------------------------------------------------- the step in three parts

  function Flushed(st: State): State
  {
    st.(db := Apply(st.db, st.batch), batch := [], cached := 0)
  }

  function MaybeFlushed(st: State): State
  {
    if st.cached >= BATCH_CAPACITY then Flushed(st) else st
  }

  /** The state with the tip moved to position `j` of the active chain: flush and reorg, unless it is there already. */
  ghost function Positioned(cp: Checkpoint, st: State, bs: seq<Block>, j: nat): State
    requires j <= |bs| && |st.lib| == |bs|
  {
    if j == |bs| then st else Rewound(cp, Flushed(st), bs, j, Kept(j))
  }

  /** A block with the zero hash reaches the batch but is discarded by memory and libcomb. */
  function Ingested(digest: Bytes -> Hash, st: State, bd: BlockData): State
  {
    var e := Extended(digest, st, bd);
    MaybeFlushed(if bd.hash != ZERO then e else st.(batch := e.batch, cached := e.cached))
  }

  /** What a caller can check before handing over a block whose parent is at position `j`. */
  ghost predicate Accepts(cp: Checkpoint, bs: seq<Block>, j: nat, hash: Hash)
    requires j <= |bs|
  {
    (j > 0 || bs == []) && Fresh(cp, bs[..j], hash)
  }

  // ---------------------------------------------------------------- the accepted case

  lemma AgreeIsUpToFlush(cp: Checkpoint, digest: Bytes -> Hash, st: State, bs: seq<Block>, k: nat)
    ensures Agree(cp, digest, st, bs, k) <==> AgreeUpToFlush(cp, digest, st, bs, k) && st.cached < BATCH_CAPACITY
  {
  }

  /** `k` of the result: how much of the new chain is on disk. */
  function OnDisk(st: State, length: nat, k: nat): nat
  {
    if st.cached + 1 >= BATCH_CAPACITY then length + 1 else k
  }

  lemma IngestKeepsAgreement(cp: Checkpoint, digest: Bytes -> Hash, st: State, bs: seq<Block>, k: nat, bd: BlockData)
    requires Agree(cp, digest, st, bs, k)
    requires cp.height + |bs| + 1 < HEIGHT_LIMIT && |bd.commits| <= TWO_32
    requires bd.previous == st.hash && Fresh(cp, bs, bd.hash)
    ensures Agree(cp, digest, Ingested(digest, st, bd), bs + [NewBlock(digest, bd, cp.height + |bs| + 1)], OnDisk(st, |bs|, k))
  {
    hide Linked, Storable, Apply, StoreOf, ChainHolds, StoreOps, RemoveOps, Authentic;
    AgreeExtend(cp, digest, st, bs, k, bd);
    var e, bs' := Extended(digest, st, bd), bs + [NewBlock(digest, bd, st.height + 1)];
    AgreeIsUpToFlush(cp, digest, e, bs', k);
    if e.cached >= BATCH_CAPACITY {
      AgreeFlush(cp, digest, e, bs', k);
    }
  }

  lemma PositionKeepsAgreement(cp: Checkpoint, digest: Bytes -> Hash, st: State, bs: seq<Block>, k: nat, j: nat)
    requires Agree(cp, digest, st, bs, k) && j <= |bs| && (j > 0 || bs == [])
    ensures |st.lib| == |bs|
    ensures Agree(cp, digest, Positioned(cp, st, bs, j), bs[..j], if j == |bs| then k else j)
  {
    hide Linked, Storable, Apply, StoreOf, ChainHolds, Authentic;
    if j == |bs| {
      assert bs[..j] == bs;
    } else {
      AgreeIsUpToFlush(cp, digest, st, bs, k);
      AgreeFlush(cp, digest, st, bs, k);
      AgreeRewind(cp, digest, Flushed(st), bs, j);
    }
  }

  // ---------------------------------------------------------------- the refused cases

  /** Number of blocks loaded and stored at position `j`: one too many after a reorg to the checkpoint. */
  function Loaded(length: nat, j: nat): nat
  {
    if j == length then j else Kept(j)
  }

  /** Where memory and libcomb stand once positioned, in the broken case as well. */
  lemma PositionedMemory(cp: Checkpoint, st: State, bs: seq<Block>, j: nat)
    requires MemoryHolds(cp, st, bs) && j <= |bs|
    ensures |st.lib| == |bs|
    ensures var p, n := Positioned(cp, st, bs, j), Loaded(|bs|, j);
            n <= |bs| && p.hash == HashAt(cp, bs, j) && p.height == cp.height + n && |p.lib| == n && p.chain == st.chain
  {
  }

  /** What the store and batch hold once positioned, in the broken case as well. */
  lemma PositionedStore(cp: Checkpoint, digest: Bytes -> Hash, st: State, bs: seq<Block>, k: nat, j: nat)
    returns (m: nat)
    requires Agree(cp, digest, st, bs, k) && j <= |bs|
    ensures |st.lib| == |bs|
    ensures var p, n := Positioned(cp, st, bs, j), Loaded(|bs|, j);
            && m <= n <= |bs| && Storable(bs[..n]) && HeightsBelow(bs[..n], cp.height + n + 1) && Storable(bs[..n][..m])
            && p.db == StoreOf(bs[..n][..m]) && Apply(p.db, p.batch) == StoreOf(bs[..n])
  {
    hide Linked, MemoryHolds, Apply, StoreOf, Authentic, Storable, CutFrom, HeightsBelow, HeightsFrom;
    var n := Loaded(|bs|, j);
    PositionedMemory(cp, st, bs, j);
    LinkedPrefix(cp, bs, n);
    LinkedHeights(cp, bs, n);
    CutStore(cp, bs, n);
    if j == |bs| {
      assert bs[..n] == bs;
      m := k;
    } else {
      assert bs[..n][..n] == bs[..n];
      ApplyNothing(StoreOf(bs[..n]));
      m := n;
    }
  }

  lemma {:induction false} ZeroHashDisagrees(cp: Checkpoint, digest: Bytes -> Hash, st: State, bs: seq<Block>,
                                             m: nat, bd: BlockData)
    requires Storable(bs) && HeightsBelow(bs, st.height + 1) && st.height + 1 < HEIGHT_LIMIT && |bd.commits| <= TWO_32
    requires m <= |bs| && Storable(bs[..m]) && st.db == StoreOf(bs[..m]) && Apply(st.db, st.batch) == StoreOf(bs)
    requires |st.lib| == |bs| && bd.hash == ZERO
    ensures !InAgreement(cp, digest, Ingested(digest, st, bd))
  {
    var b := NewBlock(digest, bd, st.height + 1);
    StorableAppend(bs, b);
    hide Storable, Apply, StoreOf, StoreOps, RemoveOps, HeightsBelow;
    ExtendStore(st.db, st.batch, bs, m, b);
    var s := Ingested(digest, st, bd);
    var db' := Apply(st.db, Extended(digest, st, bd).batch);
    ApplyNothing(db');
    assert Apply(s.db, s.batch) == StoreOf(bs + [b]);
    NoAgreementOnCount(cp, digest, s, bs + [b]);
  }

  lemma NotFreshPosition(cp: Checkpoint, bs: seq<Block>, hash: Hash) returns (i: nat)
    requires hash != ZERO && !Fresh(cp, bs, hash)
    ensures i <= |bs| && hash == HashAt(cp, bs, i)
  {
    i :| 0 <= i <= |bs| && hash == HashAt(cp, bs, i);
  }

  lemma RepeatDisagrees(cp: Checkpoint, digest: Bytes -> Hash, st: State, bs: seq<Block>, bd: BlockData)
    requires Linked(cp, bs) && MemoryHolds(cp, st, bs) && bd.previous == st.hash
    requires bd.hash != ZERO && !Fresh(cp, bs, bd.hash)
    ensures !InAgreement(cp, digest, Ingested(digest, st, bd))
  {
    hide StoreOps, RemoveOps, Apply, InAgreement;
    var i := NotFreshPosition(cp, bs, bd.hash);
    NoAgreementAfterRepeat(cp, digest, st.chain, bs, i, Ingested(digest, st, bd));
  }

  // ---------------------------------------------------------------- the exact condition

  /**
   A step whose parent lies on the active chain at position `j` leaves the three views in
   agreement exactly if the parent is not
   the checkpoint under a non-empty chain and the hash is non-zero and new to the path.
   */
  lemma StepAgreement(cp: Checkpoint, digest: Bytes -> Hash, st: State, bs: seq<Block>, k: nat, j: nat, bd: BlockData)
    requires Agree(cp, digest, st, bs, k)
    requires j <= |bs| && bd.previous == HashAt(cp, bs, j)
    requires cp.height + |bs| + 1 < HEIGHT_LIMIT && |bd.commits| <= TWO_32
    ensures |st.lib| == |bs|
    ensures var st' := Ingested(digest, Positioned(cp, st, bs, j), bd);
            InAgreement(cp, digest, st') <==> Accepts(cp, bs, j, bd.hash)
  {
    hide Linked, Storable, Apply, StoreOf, ChainHolds, Authentic, Fresh, CutFrom;
    if Accepts(cp, bs, j, bd.hash) {
      AcceptedStep(cp, digest, st, bs, k, j, bd);
    } else {
      RefusedStep(cp, digest, st, bs, k, j, bd);
    }
  }

  /** The accepted step ends on the chain cut at `j` with the new block on top. */
  lemma AcceptedStep(cp: Checkpoint, digest: Bytes -> Hash, st: State, bs: seq<Block>, k: nat, j: nat, bd: BlockData)
    requires Agree(cp, digest, st, bs, k)
    requires j <= |bs| && bd.previous == HashAt(cp, bs, j) && Accepts(cp, bs, j, bd.hash)
    requires cp.height + |bs| + 1 < HEIGHT_LIMIT && |bd.commits| <= TWO_32
    ensures |st.lib| == |bs|
    ensures var p := Positioned(cp, st, bs, j);
            Agree(cp, digest, Ingested(digest, p, bd), bs[..j] + [NewBlock(digest, bd, cp.height + j + 1)],
                  OnDisk(p, j, if j == |bs| then k else j))
  {
    hide Linked, Storable, Apply, StoreOf, ChainHolds, Authentic, Fresh, CutFrom;
    PositionKeepsAgreement(cp, digest, st, bs, k, j);
    var p := Positioned(cp, st, bs, j);
    IngestKeepsAgreement(cp, digest, p, bs[..j], if j == |bs| then k else j, bd);
  }

  lemma RefusedStep(cp: Checkpoint, digest: Bytes -> Hash, st: State, bs: seq<Block>, k: nat, j: nat, bd: BlockData)
    requires Agree(cp, digest, st, bs, k)
    requires j <= |bs| && bd.previous == HashAt(cp, bs, j) && !Accepts(cp, bs, j, bd.hash)
    requires cp.height + |bs| + 1 < HEIGHT_LIMIT && |bd.commits| <= TWO_32
    ensures |st.lib| == |bs|
    ensures !InAgreement(cp, digest, Ingested(digest, Positioned(cp, st, bs, j), bd))
  {
    hide Storable, Apply, StoreOf, ChainHolds, Authentic, CutFrom, StoreOps, RemoveOps, Linked, InAgreement;
    PositionedMemory(cp, st, bs, j);
    var p, n := Positioned(cp, st, bs, j), Loaded(|bs|, j);
    if bd.hash == ZERO {
      var m := PositionedStore(cp, digest, st, bs, k, j);
      ZeroHashDisagrees(cp, digest, p, bs[..n], m, bd);
    } else if j == 0 && bs != [] {
      NoAgreementAfterCheckpointReorg(cp, digest, Ingested(digest, p, bd));
    } else {
      PositionKeepsAgreement(cp, digest, st, bs, k, j);
      RepeatDisagrees(cp, digest, p, bs[..j], bd);
    }
  }

  // ---------------------------------------------------------------- what reaches the disk

  /** Accepted or not, a block handed over joins what the store behind its batch holds. */
  lemma IngestedStore(digest: Bytes -> Hash, st: State, bs: seq<Block>, m: nat, bd: BlockData)
    requires m <= |bs| && Storable(bs) && Storable(bs[..m]) && st.db == StoreOf(bs[..m]) && Apply(st.db, st.batch) == StoreOf(bs)
    requires Storable(bs + [NewBlock(digest, bd, st.height + 1)])
    ensures var st' := Ingested(digest, st, bd);
            Apply(st'.db, st'.batch) == StoreOf(bs + [NewBlock(digest, bd, st.height + 1)])
  {
    hide Storable, Apply, StoreOf, StoreOps, RemoveOps;
    ExtendStore(st.db, st.batch, bs, m, NewBlock(digest, bd, st.height + 1));
    ApplyNothing(Apply(st.db, Extended(digest, st, bd).batch));
  }

  /** A flush after a block on the tip stores the chain with that block on top, accepted or not. */
  lemma IngestWrites(cp: Checkpoint, digest: Bytes -> Hash, st: State, bs: seq<Block>, k: nat, bd: BlockData)
    requires Agree(cp, digest, st, bs, k) && st.cached + 1 >= BATCH_CAPACITY
    requires cp.height + |bs| + 1 < HEIGHT_LIMIT && |bd.commits| <= TWO_32
    ensures var bs' := bs + [NewBlock(digest, bd, cp.height + |bs| + 1)];
            Storable(bs') && Ingested(digest, st, bd).db == StoreOf(bs')
  {
    var b := NewBlock(digest, bd, cp.height + |bs| + 1);
    OneAbove(cp, bs, b);
    IngestedFlush(digest, st, bd);
    hide Storable, StoreOf, Linked, Authentic, Apply, ChainHolds, PendingOps, Ingested;
    assert b == NewBlock(digest, bd, st.height + 1);
    IngestedStore(digest, st, bs, k, bd);
    ApplyNothing(Ingested(digest, st, bd).db);
  }

  lemma IngestedFlush(digest: Bytes -> Hash, st: State, bd: BlockData)
    requires st.cached + 1 >= BATCH_CAPACITY
    ensures Ingested(digest, st, bd).batch == []
  {
    hide Apply, StoreOps, RemoveOps;
  }

  lemma OneAbove(cp: Checkpoint, bs: seq<Block>, b: Block)
    requires Linked(cp, bs) && b.meta.height == cp.height + |bs| + 1 < HEIGHT_LIMIT && |b.commits| <= TWO_32
    ensures Storable(bs + [b])
  {
    LinkedHeights(cp, bs, |bs|);
    assert bs[..|bs|] == bs;
    StorableAppend(bs, b);
  }

  // ---------------------------------------------------------------- whatever the tip

  /** The store behind its batch and libcomb hold `ls`, `m` blocks of it on disk; the tip and the map are not looked at. */
  ghost predicate Tracks(cp: Checkpoint, st: State, ls: seq<Block>, m: nat)
  {
    && m <= |ls| && Storable(ls) && HeightsBelow(ls, cp.height + |ls| + 1) && Storable(ls[..m])
    && st.db == StoreOf(ls[..m]) && Apply(st.db, st.batch) == StoreOf(ls)
    && |st.lib| == |ls| && st.height == cp.height + |ls|
    && st.cached == |ls| - m < BATCH_CAPACITY
  }

  lemma TracksIngest(cp: Checkpoint, digest: Bytes -> Hash, st: State, ls: seq<Block>, m: nat, bd: BlockData)
    returns (m': nat)
    requires Tracks(cp, st, ls, m) && bd.hash != ZERO
    requires cp.height + |ls| + 1 < HEIGHT_LIMIT && |bd.commits| <= TWO_32
    ensures Tracks(cp, Ingested(digest, st, bd), ls + [NewBlock(digest, bd, cp.height + |ls| + 1)], m')
    ensures Ingested(digest, st, bd).hash == bd.hash
  {
    hide Storable, StoreOf, Apply, HeightsBelow, StoreOps, RemoveOps, Fingerprint;
    var b := NewBlock(digest, bd, st.height + 1);
    var ls' := ls + [b];
    TrackedNext(cp, ls, b);
    hide NewBlock;
    ExtendStore(st.db, st.batch, ls, m, b);
    ApplyNothing(StoreOf(ls'));
    Prefixes(ls, b, m);
    m' := if st.cached + 1 >= BATCH_CAPACITY then |ls'| else m;
  }

  lemma TrackedNext(cp: Checkpoint, ls: seq<Block>, b: Block)
    requires Storable(ls) && HeightsBelow(ls, cp.height + |ls| + 1)
    requires b.meta.height == cp.height + |ls| + 1 < HEIGHT_LIMIT && |b.commits| <= TWO_32
    ensures Storable(ls + [b]) && HeightsBelow(ls + [b], cp.height + |ls| + 2)
  {
    StorableAppend(ls, b);
  }

  lemma Prefixes<T>(s: seq<T>, x: T, m: nat)
    requires m <= |s|
    ensures (s + [x])[..m] == s[..m] && (s + [x])[..|s| + 1] == s + [x]
  {
  }

  lemma TracksFlush(cp: Checkpoint, st: State, ls: seq<Block>, m: nat)
    requires Tracks(cp, st, ls, m)
    ensures Tracks(cp, Flushed(st), ls, |ls|) && Flushed(st).batch == []
  {
    hide Storable, StoreOf, Apply, HeightsBelow;
    assert ls[..|ls|] == ls;
    ApplyNothing(StoreOf(ls));
  }

  /** A reorg to the checkpoint under a non-empty chain leaves the first block stored and loaded. */
  lemma TracksReroot(cp: Checkpoint, digest: Bytes -> Hash, st: State, bs: seq<Block>, k: nat)
    requires Agree(cp, digest, st, bs, k) && bs != []
    ensures |st.lib| == |bs| && Tracks(cp, Positioned(cp, st, bs, 0), bs[..1], 1)
  {
    hide Linked, Storable, StoreOf, Apply, Authentic, ChainHolds, CutFrom, StoreHolds, HeightsBelow;
    PositionedMemory(cp, st, bs, 0);
    var m := PositionedStore(cp, digest, st, bs, k, 0);
    ApplyNothing(Positioned(cp, st, bs, 0).db);
    assert bs[..1][..1] == bs[..1];
  }
}
