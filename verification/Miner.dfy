/**
 The running node: `COMBInfo`, `NeoInfo`, libcomb's stack of blocks and the store, changed
 step by step as in neominer.go, combcore.go and db.go. A `log.Panicf` is a `Halt` outcome.
 */
module Miner {
  import opened Wrappers
  import opened Bytes
  import opened KeyValue
  import opened Layout
  import opened Scans
  import opened Lookups
  import opened ChainState
  import opened Step

  datatype Reason = ChainBroken | PastCheckpoint | SanityPrevious | SanityHeight | CorruptAtZero

  datatype Outcome = Done | Halt(reason: Reason)

  /** Some prefix of `bs`, and nothing else, is stored. */
  ghost predicate StoresPrefixOf(db: Store, bs: seq<Block>)
  {
    exists n :: 0 <= n <= |bs| && Storable(bs[..n]) && db == StoreOf(bs[..n])
  }

  ghost predicate OnPath(cp: Checkpoint, bs: seq<Block>, h: Hash)
  {
    exists j :: 0 <= j <= |bs| && HashAt(cp, bs, j) == h
  }

  class Node {
    const cp: Checkpoint
    const digest: Bytes -> Hash

    // COMBInfo
    var height: nat
    var hash: Hash
    var chain: map<Hash, Hash>
    // libcomb: the commits of each loaded block, above the height set at start-up
    var lib: seq<seq<Hash>>
    // LevelDB
    var db: Store
    // NeoInfo
    var batch: seq<Op>
    var cached: nat

    /** The store after each atomic write so far. */
    ghost var writes: seq<Store>
    /** The active chain above the checkpoint, and how much of it is on disk. */
    ghost var active: seq<Block>
    ghost var onDisk: nat

    ghost function Snap(): State
      reads this
    {
      State(height, hash, chain, lib, db, batch, cached)
    }

    ghost predicate Valid()
      reads this
    {
      Agree(cp, digest, Snap(), active, onDisk)
    }

    /** `combcore_init`, `neominer_init` and `db_new`: a node with an empty, versioned store. */
    constructor (cp: Checkpoint, digest: Bytes -> Hash)
      requires cp.hash != ZERO && cp.height < HEIGHT_LIMIT
      ensures this.cp == cp && this.digest == digest
      ensures Valid() && active == [] && writes == [db]
    {
      this.cp, this.digest := cp, digest;
      height, hash, lib := cp.height, cp.hash, [];
      chain := map[cp.hash := ZERO];
      db := map[VERSION_KEY := VERSION_VALUE];
      batch, cached := [], 0;
      writes, active, onDisk := [map[VERSION_KEY := VERSION_VALUE]], [], 0;
      new;
      EmptyStore();
      assert active[..0] == [] && active[0..] == [];
    }

    /** A node started on an existing store, before loading it. */
    constructor Open(cp: Checkpoint, digest: Bytes -> Hash, stored: Store)
      ensures this.cp == cp && this.digest == digest && db == stored && writes == []
      ensures height == cp.height && hash == cp.hash && lib == [] && chain == map[cp.hash := ZERO]
      ensures batch == [] && cached == 0
    {
      this.cp, this.digest := cp, digest;
      height, hash, lib := cp.height, cp.hash, [];
      chain := map[cp.hash := ZERO];
      db, batch, cached := stored, [], 0;
      writes, active, onDisk := [], [], 0;
    }

    /** `db_write`: one atomic write. */
    method DbWrite(ops: seq<Op>)
      modifies `db, `writes
      ensures db == Apply(old(db), ops) && writes == old(writes) + [db]
    {
      db := Apply(db, ops);
      writes := writes + [db];
    }

    /** `neominer_write`: on a node in agreement the store then holds the whole active chain. */
    method Write()
      modifies `db, `writes, `batch, `cached, `onDisk
      ensures Snap() == Flushed(old(Snap())) && writes == old(writes) + [db]
      ensures old(Valid()) ==>
                Valid() && onDisk == |active| && Storable(active) && db == StoreOf(active) && StoresPrefixOf(db, active)
    {
      hide Agree, Storable, StoreOf, StoresPrefixOf, Apply;
      ghost var st := Snap();
      if Agree(cp, digest, st, active, onDisk) {
        FlushedFacts(cp, digest, st, active, onDisk);
        onDisk := |active|;
      }
      DbWrite(batch);
      batch := [];
      cached := 0;
    }

    /** `combcore_process_block`: discard a dummy, otherwise check the link, load, check the height. */
    method CombProcess(block: Block) returns (o: Outcome)
      modifies `height, `hash, `chain, `lib
      ensures block.meta.hash == ZERO ==> o == Done && Snap() == old(Snap())
      ensures block.meta.hash != ZERO && block.meta.previous != old(hash) ==>
                o == Halt(SanityPrevious) && Snap() == old(Snap())
      ensures block.meta.hash != ZERO && block.meta.previous == old(hash) ==>
                && o == (if cp.height + |old(lib)| + 1 == block.meta.height then Done else Halt(SanityHeight))
                && (o == Done ==> Snap() == old(Snap()).(
                     height := block.meta.height, hash := block.meta.hash, lib := old(lib) + [block.commits],
                     chain := old(chain)[block.meta.hash := old(hash)]))
    {
      if block.meta.hash == ZERO {
        return Done;
      }
      if block.meta.previous != hash {
        return Halt(SanityPrevious);
      }
      lib := lib + [block.commits];
      height := cp.height + |lib|;
      if height != block.meta.height {
        return Halt(SanityHeight);
      }
      chain := chain[block.meta.hash := hash];
      hash := block.meta.hash;
      return Done;
    }

    /** The hash walk of `combcore_reorg`: from the tip towards the checkpoint until the target. */
    method TraceBack(target: Hash) returns (o: Outcome)
      requires ChainHolds(chain, cp, active) && hash == Tip(cp, active) && target != ZERO
      modifies `hash
      ensures o == (if OnPath(cp, active, target) then Done else Halt(PastCheckpoint))
      ensures o == Done ==> hash == target
    {
      hide ChainHolds;
      ghost var bs := active;
      ghost var i: int := |bs|;
      while hash != target
        invariant -1 <= i <= |bs|
        invariant hash == PathHash(cp, bs, i)
        invariant forall m | i < m <= |bs| :: HashAt(cp, bs, m) != target
        decreases i
      {
        ChainStep(chain, cp, bs, i);
        if hash !in chain {
          hash := ZERO;
          return Halt(PastCheckpoint);
        }
        hash := chain[hash];
        i := i - 1;
      }
      return Done;
    }

    /** `db_remove_blocks_after`: one atomic write that drops every key from that height on. */
    method RemoveBlocksAfter(h: nat)
      modifies `db, `writes
      ensures db == CutFrom(old(db), h) && writes == old(writes) + [db]
    {
      var doomed := RemoveAfterBatch(db, h);
      DbWrite(doomed);
    }

    /** The unload loop of `combcore_reorg`. */
    method Unload(to: nat)
      requires height == cp.height + |lib| && cp.height <= to <= height
      modifies `height, `lib
      ensures height == to && lib == old(lib)[..to - cp.height]
    {
      while height != to
        invariant height == cp.height + |lib| && to <= height
        invariant |lib| <= |old(lib)| && lib == old(lib)[..|lib|]
        decreases height
      {
        lib := lib[..|lib| - 1];
        height := cp.height + |lib|;
      }
    }

    /** The deletion and the unloading of `combcore_reorg`. */
    method DropTo(to: nat)
      requires height == cp.height + |lib| && cp.height <= to <= height
      modifies `height, `lib, `db, `writes
      ensures Snap() == old(Snap()).(height := to, lib := old(lib)[..to - cp.height], db := CutFrom(old(db), to + 1))
      ensures writes == old(writes) + [db]
    {
      hide CutFrom;
      RemoveBlocksAfter(to + 1);
      Unload(to);
    }

    /**
     `combcore_reorg` on a flushed chain whose tip is not the target. A target at position `j` ends with the
     tip there and `Kept(j)` blocks stored and loaded; a target off the active path halts
     before anything is deleted.
     */
    method Reorg(target: Hash) returns (o: Outcome)
      requires Valid() && onDisk == |active| && batch == [] && target != ZERO && target != hash
      modifies `height, `hash, `lib, `db, `writes
      ensures o == (if OnPath(cp, active, target) then Done else Halt(PastCheckpoint))
      ensures o != Done ==> db == old(db) && writes == old(writes)
      ensures o == Done ==> writes == old(writes) + [db]
      ensures forall j | 0 <= j <= |active| && HashAt(cp, active, j) == target ::
                |old(lib)| == |active| && Snap() == Rewound(cp, old(Snap()), active, j, Kept(j))
    {
      hide Agree, ChainHolds, CutFrom, ScanBack, WellSized, Iterate, HashAt, OnPath;
      ghost var bs, st := active, Snap();
      PathCases(cp, bs, target);
      PathIsKnown(cp, digest, st, bs, onDisk, target);
      StoredTarget(cp, digest, st, bs, target);
      var metadata := GetBlockByHash(db, target);
      o := TraceBack(target);
      if o != Done {
        return;
      }
      ghost var j :| 0 <= j <= |bs| && HashAt(cp, bs, j) == target;
      SamePositions(cp, digest, st, bs, onDisk, j);
      KeptBound(bs, j);
      assert metadata.height == cp.height + Kept(j);
      DropTo(metadata.height);
      assert Snap() == Rewound(cp, st, bs, j, Kept(j));
    }

    /**
     The loop of `db_load` on a freshly opened node, to the point where the deferred handler of its
     goroutine unlocks. `panicked` is the handler's corruption height: that of the first bad
     fingerprint, or zero after a failed sanity check. The store has not been touched by then.
     */
    method Replay(ghost bs: seq<Block>) returns (panicked: Option<nat>, count: nat)
      requires hash == cp.hash && height == cp.height && lib == [] && chain == map[cp.hash := ZERO]
      requires Storable(bs) && db == StoreOf(bs)
      modifies `height, `hash, `chain, `lib
      ensures forall n | 0 <= n < |bs| && CorruptAt(cp, digest, bs, n) ::
                panicked == Some(bs[n].meta.height) && LoadedPrefix(cp, digest, Snap(), bs, n)
      ensures NoZeroHash(bs, |bs|) && Authentic(digest, bs) ==>
                if Chained(cp, bs)
                then panicked == None && LoadedPrefix(cp, digest, Snap(), bs, |bs|) && count == if bs == [] then 0 else |bs| + 1
                else panicked == Some(0)
    {
      hide Storable, StoreOf, Chained, Authentic, LoadedPrefix, Group, WellSized, Iterate, InRange, CorruptAt,
           Fingerprint, NoZeroHash, AuthenticBelow, Emitted, HashAt, BlockKey, Agree, Linked;
      LoadScan(bs);
      var blocks := LoadBlocks(db, 0, 0xFFFF_FFFF_FFFF_FFFF - 1);
      LoadStart(cp, digest, Snap(), bs);
      count := 0;
      ghost var n := 0;
      for i := 0 to |blocks|
        invariant count == i && n == (if i == 0 then 0 else i - 1) && n <= |bs|
        invariant i == 0 ==> Snap() == old(Snap())
        invariant NoZeroHash(bs, n) ==> LoadedPrefix(cp, digest, Snap(), bs, n)
        invariant AuthenticBelow(digest, bs, n)
      {
        var block := blocks[i];
        var fingerprint := Fingerprint(digest, block.commits);
        DummyIsEmpty(digest);
        assert block == if i == 0 then DUMMY else bs[n];
        if block.meta.fingerprint != fingerprint {
          FirstBad(cp, digest, bs, n);
          return Some(block.meta.height), count;
        }
        ghost var st := Snap();
        var r := CombProcess(block);
        if r != Done {
          HaltedLoad(cp, digest, st, bs, n);
          return Some(0), count;
        }
        count := count + 1;
        if i > 0 {
          LoadedNext(cp, digest, st, bs, n, Snap());
          n := n + 1;
        }
      }
      NoneBad(cp, digest, bs);
      LoadedWhole(cp, digest, Snap(), bs);
      return None, count;
    }

    /** The rest of the deferred handler of `db_load`. */
    method Recover(corruptionHeight: nat) returns (o: Outcome)
      modifies `db, `writes
      ensures corruptionHeight == 0 ==> o == Halt(CorruptAtZero) && db == old(db) && writes == old(writes)
      ensures corruptionHeight != 0 ==> o == Done && db == CutFrom(old(db), corruptionHeight) && writes == old(writes) + [db]
    {
      if corruptionHeight == 0 {
        return Halt(CorruptAtZero);
      }
      RemoveBlocksAfter(corruptionHeight);
      return Done;
    }

    /**
     `db_load` on a freshly opened node, with nothing happening between the handler's unlocking and
     its deletion. A linked store with good fingerprints is replayed completely. If the blocks below
     the first bad fingerprint are linked, memory keeps them and everything from that height on
     is dropped from the store, unless the height is zero. Given good fingerprints and no zero hash, loading
     succeeds exactly on a chain.
     */
    method Load(ghost bs: seq<Block>) returns (o: Outcome, count: nat)
      requires hash == cp.hash && height == cp.height && lib == [] && chain == map[cp.hash := ZERO]
      requires batch == [] && cached == 0 && Storable(bs) && db == StoreOf(bs)
      modifies this
      ensures Linked(cp, bs) && Authentic(digest, bs) ==>
                && o == Done && Valid() && active == bs && onDisk == |bs| && writes == old(writes)
                && count == if bs == [] then 0 else |bs| + 1
      ensures forall n | 0 <= n < |bs| && CorruptAt(cp, digest, bs, n) ::
                if bs[n].meta.height == 0
                then o == Halt(CorruptAtZero) && db == old(db) && writes == old(writes)
                else && o == Done && Valid() && active == bs[..n] && onDisk == n
                     && Storable(bs[..n]) && db == StoreOf(bs[..n]) && writes == old(writes) + [db]
      ensures NoZeroHash(bs, |bs|) && Authentic(digest, bs) ==> (o == Done <==> Chained(cp, bs))
    {
      hide Linked, Storable, StoreOf, Chained, Authentic, Agree, CutFrom, NoZeroHash, CorruptAt, DistinctHashes,
           ChainHolds,
           CommitLists, HashAt;
      var panicked: Option<nat>;
      panicked, count := Replay(bs);
      LinkedFacts(cp, bs);
      assert bs[..|bs|] == bs;
      if panicked.None? {
        o := Done;
        if Linked(cp, bs) && Authentic(digest, bs) {
          active, onDisk := bs, |bs|;
          LoadedAgree(cp, digest, Snap(), bs, |bs|);
        }
      } else {
        o := Recover(panicked.value);
        if n: nat :| n < |bs| && CorruptAt(cp, digest, bs, n) {
          OneCorruption(cp, digest, bs, n);
          StoreCutBelow(bs, n);
          if panicked.value != 0 {
            active, onDisk := bs[..n], n;
            CorruptFacts(cp, digest, bs, n);
            LoadedAgree(cp, digest, Snap(), bs, n);
          }
        }
      }
    }

    /** The second half of `neominer_process_block`, all of it if the parent is the tip: the block goes on top of the tip. */
    method Ingest(bd: BlockData)
      requires bd.previous == hash && height == cp.height + |lib|
      modifies `height, `hash, `chain, `lib, `db, `batch, `cached, `writes, `onDisk
      ensures Snap() == Ingested(digest, old(Snap()), bd)
      ensures writes == old(writes) + if old(cached) + 1 >= 10000 then [db] else []
    {
      hide Agree, Storable, StoreOf, StoresPrefixOf, Apply, RemoveOps, StoreOps, Iterate, Fingerprint, BlockKey;
      var block := NewBlock(digest, bd, height + 1);
      batch := AddBlock(db, batch, block);
      cached := cached + 1;
      var o := CombProcess(block);
      assert o == Done;
      if cached >= BATCH_CAPACITY {
        Write();
      }
    }

    /** The step once the tip is where the block goes: position `j` of the chain `bs` the node agreed on. */
    method Advance(bd: BlockData, ghost st: State, ghost bs: seq<Block>, ghost k: nat, ghost j: nat)
      requires Agree(cp, digest, st, bs, k) && j <= |bs| && HashAt(cp, bs, j) == bd.previous
      requires |st.lib| == |bs| && Snap() == Positioned(cp, st, bs, j)
      requires cp.height + |bs| + 1 < HEIGHT_LIMIT && |bd.commits| <= TWO_32
      modifies this
      ensures if Accepts(cp, bs, j, bd.hash)
              then Valid() && active == bs[..j] + [NewBlock(digest, bd, cp.height + j + 1)]
              else Snap() == Ingested(digest, Positioned(cp, st, bs, j), bd) && !InAgreement(cp, digest, Snap())
      ensures st.chain.Keys <= chain.Keys
      ensures || writes == old(writes)
              || (writes == old(writes) + [db] && StoresPrefixOf(db, bs[..j] + [NewBlock(digest, bd, cp.height + j + 1)]))
    {
      hide Agree, CutFrom, Ingested, Positioned, Accepts, InAgreement, StoresPrefixOf, HashAt, NewBlock;
      ghost var p := Positioned(cp, st, bs, j);
      PositionedFacts(cp, digest, st, bs, k, j);
      LastWrite(cp, digest, st, bs, k, j, bd);
      Ingest(bd);
      ChainGrows(digest, p, bd);
      if Accepts(cp, bs, j, bd.hash) {
        AcceptedStep(cp, digest, st, bs, k, j, bd);
        active := bs[..j] + [NewBlock(digest, bd, cp.height + j + 1)];
        onDisk := OnDisk(p, j, if j == |bs| then k else j);
      } else {
        RefusedStep(cp, digest, st, bs, k, j, bd);
      }
    }

    /**
     `neominer_process_block`. An unknown parent halts with nothing changed; a known parent
     off the active path halts with the whole chain written and nothing deleted; a parent on
     the path never halts, and leaves the three views in agreement, on the chain cut at the
     parent with the new block on top, exactly if the step is accepted. Accepted or not, every
     atomic write on the way stores a prefix of the chain before, or of the chain cut at the parent
     with the new block on top.
     */
    method ProcessBlock(bd: BlockData) returns (o: Outcome)
      requires Valid() && cp.height + |active| + 1 < HEIGHT_LIMIT && |bd.commits| <= TWO_32
      modifies this
      ensures bd.previous !in old(chain) ==>
                o == Halt(ChainBroken) && Snap() == old(Snap()) && writes == old(writes)
      ensures bd.previous in old(chain) && !OnPath(cp, old(active), bd.previous) ==>
                o == Halt(PastCheckpoint) && writes == old(writes) + [db]
                && Storable(old(active)) && db == StoreOf(old(active))
      ensures OnPath(cp, old(active), bd.previous) ==> o == Done
      ensures forall j | 0 <= j <= |old(active)| && HashAt(cp, old(active), j) == bd.previous ::
                if Accepts(cp, old(active), j, bd.hash)
                then Valid() && active == old(active)[..j] + [NewBlock(digest, bd, cp.height + j + 1)]
                else Snap() == Ingested(digest, old(Positioned(cp, Snap(), active, j)), bd) && !InAgreement(cp, digest, Snap())
      ensures old(chain).Keys <= chain.Keys
      ensures old(writes) <= writes
      ensures forall i, j | |old(writes)| <= i < |writes| && 0 <= j <= |old(active)| && HashAt(cp, old(active), j) == bd.previous ::
                || StoresPrefixOf(writes[i], old(active))
                || StoresPrefixOf(writes[i], old(active)[..j] + [NewBlock(digest, bd, cp.height + j + 1)])
    {
      hide Agree, ChainHolds, CutFrom, Ingested, Positioned, Rewound, Accepts, InAgreement, StoresPrefixOf, Storable,
           StoreOf, Apply, HashAt, NewBlock, OnPath;
      ghost var st, bs, k := Snap(), active, onDisk;
      PathCases(cp, bs, bd.previous);
      PathIsKnown(cp, digest, st, bs, k, bd.previous);
      FlushedFacts(cp, digest, st, bs, k);
      if bd.previous != hash {
        if bd.previous !in chain {
          return Halt(ChainBroken);
        }
        Write();
        o := Reorg(bd.previous);
        if o != Done {
          return;
        }
      }
      ghost var j :| 0 <= j <= |bs| && HashAt(cp, bs, j) == bd.previous;
      SamePositions(cp, digest, st, bs, k, |bs|);
      ghost var p := Positioned(cp, st, bs, j);
      PositionedCases(cp, st, bs, j);
      assert Snap() == p;
      assert HashAt(cp, bs, j) == bd.previous;
      SamePositions(cp, digest, st, bs, k, j);
      PositionedFacts(cp, digest, st, bs, k, j);
      Advance(bd, st, bs, k, j);
      o := Done;
    }
  }

  // ---------------------------------------------------------------- loading

  ghost predicate NoZeroHash(bs: seq<Block>, n: nat)
  {
    forall i | 0 <= i < |bs| && i < n :: bs[i].meta.hash != ZERO
  }

  ghost predicate AuthenticBelow(digest: Bytes -> Hash, bs: seq<Block>, n: nat)
  {
    forall i | 0 <= i < |bs| && i < n :: bs[i].meta.fingerprint == Fingerprint(digest, bs[i].commits)
  }

  /** The first bad fingerprint is that of block `n`, and the blocks below are a chain. */
  ghost predicate CorruptAt(cp: Checkpoint, digest: Bytes -> Hash, bs: seq<Block>, n: nat)
    requires n < |bs|
  {
    && Linked(cp, bs[..n]) && Authentic(digest, bs[..n])
    && bs[n].meta.fingerprint != Fingerprint(digest, bs[n].commits)
  }

  /** Memory and libcomb after loading the first `n` blocks of `bs`; the map is right if no hash repeats. */
  ghost predicate LoadedPrefix(cp: Checkpoint, digest: Bytes -> Hash, st: State, bs: seq<Block>, n: nat)
    requires n <= |bs|
  {
    && Chained(cp, bs[..n]) && Authentic(digest, bs[..n])
    && st.hash == HashAt(cp, bs, n) && st.height == cp.height + n && st.lib == CommitLists(bs[..n])
    && (DistinctHashes(cp, bs[..n]) ==> ChainHolds(st.chain, cp, bs[..n]))
  }

  lemma LoadStart(cp: Checkpoint, digest: Bytes -> Hash, st: State, bs: seq<Block>)
    requires st.hash == cp.hash && st.height == cp.height && st.lib == [] && st.chain == map[cp.hash := ZERO]
    ensures LoadedPrefix(cp, digest, st, bs, 0) && AuthenticBelow(digest, bs, 0)
  {
    assert bs[..0] == [];
    assert HashAt(cp, [], 0) == cp.hash;
  }

  lemma LoadStep(cp: Checkpoint, digest: Bytes -> Hash, st: State, bs: seq<Block>, n: nat, st': State)
    requires n < |bs| && LoadedPrefix(cp, digest, st, bs, n)
    requires bs[n].meta.fingerprint == Fingerprint(digest, bs[n].commits)
    requires bs[n].meta.previous == st.hash && bs[n].meta.height == cp.height + |st.lib| + 1
    requires st' == st.(height := bs[n].meta.height, hash := bs[n].meta.hash, lib := st.lib + [bs[n].commits],
                        chain := st.chain[bs[n].meta.hash := st.hash])
    ensures LoadedPrefix(cp, digest, st', bs, n + 1)
  {
    hide Chained, Authentic, ChainHolds, CommitLists, DistinctHashes, Fingerprint;
    var b := bs[n];
    TakeSnoc(bs, n);
    assert Tip(cp, bs[..n]) == HashAt(cp, bs, n);
    ChainedAppend(cp, bs[..n], b);
    AuthenticAppend(digest, bs[..n], b);
    CommitListsAppend(bs[..n], b);
    if DistinctHashes(cp, bs[..n + 1]) {
      LastIsFresh(cp, bs[..n], b);
      ChainExtend(st.chain, cp, bs[..n], b);
    }
  }

  lemma LastIsFresh(cp: Checkpoint, bs: seq<Block>, b: Block)
    requires DistinctHashes(cp, bs + [b])
    ensures DistinctHashes(cp, bs) && Fresh(cp, bs, b.meta.hash)
  {
    HashAtAppend(cp, bs, b);
  }

  /** Whatever was loaded and is stored is in agreement. */
  lemma LoadedAgree(cp: Checkpoint, digest: Bytes -> Hash, st: State, bs: seq<Block>, n: nat)
    requires n <= |bs| && Linked(cp, bs[..n]) && LoadedPrefix(cp, digest, st, bs, n)
    requires Storable(bs[..n]) && st.db == StoreOf(bs[..n]) && st.batch == [] && st.cached == 0
    ensures Agree(cp, digest, st, bs[..n], n)
  {
    hide Chained, Authentic, ChainHolds, Storable, StoreOf;
    assert bs[..n][..n] == bs[..n] && bs[..n][n..] == [];
    ApplyNothing(st.db);
  }

  lemma LinkedFacts(cp: Checkpoint, bs: seq<Block>)
    ensures Linked(cp, bs) ==> NoZeroHash(bs, |bs|) && Chained(cp, bs)
  {
    if Linked(cp, bs) {
      assert forall i | 0 <= i < |bs| :: bs[i].meta.hash == HashAt(cp, bs, i + 1);
    }
  }

  /** Deleting from the height of block `n` on leaves the blocks below it, linked or not. */
  lemma StoreCutBelow(bs: seq<Block>, n: nat)
    requires Storable(bs) && n < |bs|
    ensures Storable(bs[..n]) && CutFrom(StoreOf(bs), bs[n].meta.height) == StoreOf(bs[..n])
  {
    var h := bs[n].meta.height;
    assert forall i | 0 <= i < |bs[n..]| :: bs[n..][i] == bs[n + i];
    StoreOfCut(bs, n, h);
  }

  lemma DummyIsEmpty(digest: Bytes -> Hash)
    ensures DUMMY.meta.fingerprint == Fingerprint(digest, DUMMY.commits) && DUMMY.meta.hash == ZERO
  {
  }

  lemma CorruptFacts(cp: Checkpoint, digest: Bytes -> Hash, bs: seq<Block>, n: nat)
    requires n < |bs| && CorruptAt(cp, digest, bs, n)
    ensures Linked(cp, bs[..n]) && !Authentic(digest, bs)
  {
  }

  /**
   Take a list that is a chain with good fingerprints up to block `n`, whose fingerprint has stayed that of the
   original block. It is corrupt there exactly if any commit of the block, or their order, has changed.
   */
  lemma Tampered(cp: Checkpoint, digest: Bytes -> Hash, original: seq<Block>, found: seq<Block>, n: nat)
    requires Linked(cp, original) && Authentic(digest, original)
    requires n < |original| && n < |found| && found[..n] == original[..n]
    requires found[n].meta.fingerprint == original[n].meta.fingerprint
    requires TellsApart(digest, original[n].commits, found[n].commits)
    ensures CorruptAt(cp, digest, found, n) <==> found[n].commits != original[n].commits
  {
    LinkedPrefix(cp, original, n);
    AuthenticPrefix(digest, original, n);
    FingerprintTells(digest, original[n].commits, found[n].commits);
  }

  /** The first bad fingerprint is at one place. */
  lemma OneCorruption(cp: Checkpoint, digest: Bytes -> Hash, bs: seq<Block>, n: nat)
    requires n < |bs| && CorruptAt(cp, digest, bs, n)
    ensures forall m | 0 <= m < |bs| && CorruptAt(cp, digest, bs, m) :: m == n
    ensures !Authentic(digest, bs)
  {
    hide Linked;
    BadBelow(digest, bs, n);
    forall m | 0 <= m < n ensures !CorruptAt(cp, digest, bs, m) {
      assert bs[..n][m] == bs[m];
    }
  }

  /** Nothing that reaches past a bad fingerprint is authentic. */
  lemma BadBelow(digest: Bytes -> Hash, bs: seq<Block>, n: nat)
    requires n < |bs| && bs[n].meta.fingerprint != Fingerprint(digest, bs[n].commits)
    ensures !Authentic(digest, bs)
    ensures forall m | n < m <= |bs| :: !Authentic(digest, bs[..m])
  {
    forall m | n < m <= |bs| ensures !Authentic(digest, bs[..m]) {
      assert bs[..m][n] == bs[n];
    }
  }

  /** No corruption lies elsewhere than at the first bad fingerprint, and the blocks below a corruption have no zero hash. */
  lemma FirstBad(cp: Checkpoint, digest: Bytes -> Hash, bs: seq<Block>, n: nat)
    requires n < |bs| && AuthenticBelow(digest, bs, n) && bs[n].meta.fingerprint != Fingerprint(digest, bs[n].commits)
    ensures !Authentic(digest, bs)
    ensures forall m | 0 <= m < |bs| && CorruptAt(cp, digest, bs, m) :: m == n && NoZeroHash(bs, m)
  {
    BadBelow(digest, bs, n);
    forall m | 0 <= m < |bs| && CorruptAt(cp, digest, bs, m) ensures NoZeroHash(bs, m) {
      LinkedFacts(cp, bs[..m]);
      assert forall i | 0 <= i < m :: bs[..m][i] == bs[i];
    }
  }

  lemma NoneBad(cp: Checkpoint, digest: Bytes -> Hash, bs: seq<Block>)
    requires AuthenticBelow(digest, bs, |bs|)
    ensures forall m | 0 <= m < |bs| :: !CorruptAt(cp, digest, bs, m)
  {
  }

  /** A load that stops on a sanity check was not given a chain, nor a chain below a later bad fingerprint. */
  lemma HaltedLoad(cp: Checkpoint, digest: Bytes -> Hash, st: State, bs: seq<Block>, n: nat)
    requires n < |bs| && AuthenticBelow(digest, bs, n) && bs[n].meta.fingerprint == Fingerprint(digest, bs[n].commits)
    requires NoZeroHash(bs, n) ==> LoadedPrefix(cp, digest, st, bs, n)
    requires bs[n].meta.previous != st.hash || bs[n].meta.height != cp.height + |st.lib| + 1
    ensures NoZeroHash(bs, |bs|) ==> !Chained(cp, bs)
    ensures forall m | 0 <= m < |bs| :: !CorruptAt(cp, digest, bs, m)
  {
    if NoZeroHash(bs, |bs|) {
      NotChained(cp, bs, n, |bs|);
      assert bs[..|bs|] == bs;
    }
    forall m | 0 <= m < |bs| && CorruptAt(cp, digest, bs, m) ensures false {
      LinkedFacts(cp, bs[..m]);
      assert forall i | 0 <= i < m :: bs[..m][i] == bs[i];
      assert n < m;
      NotChained(cp, bs, n, m);
    }
  }

  lemma LoadedNext(cp: Checkpoint, digest: Bytes -> Hash, st: State, bs: seq<Block>, n: nat, st': State)
    requires n < |bs| && bs[n].meta.fingerprint == Fingerprint(digest, bs[n].commits)
    requires AuthenticBelow(digest, bs, n)
    requires NoZeroHash(bs, n) ==> LoadedPrefix(cp, digest, st, bs, n)
    requires bs[n].meta.hash != ZERO ==>
               && bs[n].meta.previous == st.hash && bs[n].meta.height == cp.height + |st.lib| + 1
               && st' == st.(height := bs[n].meta.height, hash := bs[n].meta.hash, lib := st.lib + [bs[n].commits],
                             chain := st.chain[bs[n].meta.hash := st.hash])
    ensures NoZeroHash(bs, n + 1) ==> LoadedPrefix(cp, digest, st', bs, n + 1)
    ensures AuthenticBelow(digest, bs, n + 1)
  {
    hide LoadedPrefix, Fingerprint;
    if NoZeroHash(bs, n + 1) {
      LoadStep(cp, digest, st, bs, n, st');
    }
  }

  lemma LoadedWhole(cp: Checkpoint, digest: Bytes -> Hash, st: State, bs: seq<Block>)
    requires NoZeroHash(bs, |bs|) ==> LoadedPrefix(cp, digest, st, bs, |bs|)
    ensures NoZeroHash(bs, |bs|) ==> Chained(cp, bs)
  {
    assert bs[..|bs|] == bs;
  }

  lemma NotChained(cp: Checkpoint, bs: seq<Block>, n: nat, m: nat)
    requires n < m <= |bs|
    requires bs[n].meta.previous != HashAt(cp, bs, n) || bs[n].meta.height != cp.height + n + 1
    ensures !Chained(cp, bs[..m])
  {
    assert bs[..m][n] == bs[n] && HashAt(cp, bs[..m], n) == HashAt(cp, bs, n);
  }

  /** The scan a load performs: one dummy block, then the stored blocks. */
  lemma LoadScan(bs: seq<Block>)
    requires Storable(bs)
    ensures WellSized(Iterate(StoreOf(bs)))
    ensures var es := InRange(Iterate(StoreOf(bs)), BlockKey(0), BlockKey(HEIGHT_LIMIT));
            WellSized(es) && Emitted(Group(es)) == if bs == [] then [] else [DUMMY] + bs
  {
    StoreOfIterate(bs);
    BlocksEntriesWellSized(bs);
    ScanStored(bs, 0, HEIGHT_LIMIT - 1);
    WithinAll(bs);
  }

  /** Hashes of the path are known to the map, the tip is on the path, and zero is not known. */
  lemma PathIsKnown(cp: Checkpoint, digest: Bytes -> Hash, st: State, bs: seq<Block>, k: nat, h: Hash)
    requires Agree(cp, digest, st, bs, k)
    ensures OnPath(cp, bs, h) ==> h in st.chain
    ensures st.hash == HashAt(cp, bs, |bs|) == Tip(cp, bs) && OnPath(cp, bs, st.hash)
    ensures ZERO !in st.chain && ChainHolds(st.chain, cp, bs)
    ensures |st.lib| == |bs| && st.height == cp.height + |bs| && st.cached == |bs| - k
  {
    hide Linked, Storable, Apply, StoreOf;
    assert HashAt(cp, bs, |bs|) == st.hash;
    if j :| 0 <= j <= |bs| && HashAt(cp, bs, j) == h {
      ChainStep(st.chain, cp, bs, j);
    }
  }

  lemma FlushedFacts(cp: Checkpoint, digest: Bytes -> Hash, st: State, bs: seq<Block>, k: nat)
    requires Agree(cp, digest, st, bs, k)
    ensures Agree(cp, digest, Flushed(st), bs, |bs|)
    ensures Storable(bs) && Apply(st.db, st.batch) == StoreOf(bs) && StoresPrefixOf(StoreOf(bs), bs)
  {
    hide Linked, Storable, Apply, StoreOf, ChainHolds, Authentic;
    AgreeIsUpToFlush(cp, digest, st, bs, k);
    AgreeFlush(cp, digest, st, bs, k);
    assert bs[..|bs|] == bs;
  }

  lemma PositionedFacts(cp: Checkpoint, digest: Bytes -> Hash, st: State, bs: seq<Block>, k: nat, j: nat)
    requires Agree(cp, digest, st, bs, k) && j <= |bs|
    ensures |st.lib| == |bs|
    ensures var p := Positioned(cp, st, bs, j);
            && p.hash == HashAt(cp, bs, j) && p.height == cp.height + |p.lib| && p.chain == st.chain
            && (j != |bs| ==> StoresPrefixOf(p.db, bs) && p.cached == 0)
  {
    hide Linked, Storable, Apply, StoreOf, ChainHolds, Authentic, CutFrom, StoreHolds;
    PositionedMemory(cp, st, bs, j);
    FlushedFacts(cp, digest, st, bs, k);
    if j != |bs| {
      CutStore(cp, bs, Kept(j));
      assert 0 <= Kept(j) <= |bs| && Storable(bs[..Kept(j)]) && Positioned(cp, st, bs, j).db == StoreOf(bs[..Kept(j)]);
    }
  }

  lemma PositionedCases(cp: Checkpoint, st: State, bs: seq<Block>, j: nat)
    requires j <= |bs| && |st.lib| == |bs|
    ensures Positioned(cp, st, bs, j) == if j == |bs| then st else Rewound(cp, Flushed(st), bs, j, Kept(j))
  {
  }

  /** `Chain` is never pruned: hashes of abandoned blocks stay known. */
  lemma ChainGrows(digest: Bytes -> Hash, st: State, bd: BlockData)
    ensures st.chain.Keys <= Ingested(digest, st, bd).chain.Keys
  {
    hide Apply, StoreOps, RemoveOps, Iterate;
  }

  /** A path hash has one position. */
  lemma SamePositions(cp: Checkpoint, digest: Bytes -> Hash, st: State, bs: seq<Block>, k: nat, j: nat)
    requires Agree(cp, digest, st, bs, k) && j <= |bs|
    ensures forall i | 0 <= i <= |bs| && HashAt(cp, bs, i) == HashAt(cp, bs, j) :: i == j
  {
    hide MemoryHolds, StoreHolds, Storable, Authentic, Chained;
  }

  /** The write that ends a step, if there is one: only on the tip, since a reorg empties the batch. */
  lemma LastWrite(cp: Checkpoint, digest: Bytes -> Hash, st: State, bs: seq<Block>, k: nat, j: nat, bd: BlockData)
    requires Agree(cp, digest, st, bs, k) && j <= |bs|
    requires cp.height + |bs| + 1 < HEIGHT_LIMIT && |bd.commits| <= TWO_32
    ensures |st.lib| == |bs|
    ensures var p := Positioned(cp, st, bs, j);
            p.cached + 1 >= BATCH_CAPACITY ==>
              StoresPrefixOf(Ingested(digest, p, bd).db, bs[..j] + [NewBlock(digest, bd, cp.height + j + 1)])
  {
    hide Linked, Storable, Apply, StoreOf, ChainHolds, Authentic, CutFrom, StoreHolds, Ingested;
    PositionedMemory(cp, st, bs, j);
    if j == |bs| && st.cached + 1 >= BATCH_CAPACITY {
      var bs' := bs + [NewBlock(digest, bd, cp.height + |bs| + 1)];
      IngestWrites(cp, digest, st, bs, k, bd);
      assert bs[..j] == bs && bs'[..|bs'|] == bs';
    }
  }

  lemma EmptyStore()
    ensures Storable([]) && StoreOf([]) == map[VERSION_KEY := VERSION_VALUE]
  {
    AllEntriesSorted([]);
    assert AllEntries([]) == [VERSION_ENTRY];
    assert [VERSION_ENTRY][0].key in StoreOf([]);
  }

  /** The hash at a position of the path, with zero below the checkpoint. */
  ghost function PathHash(cp: Checkpoint, bs: seq<Block>, i: int): Hash
    requires -1 <= i <= |bs|
  {
    if i < 0 then ZERO else HashAt(cp, bs, i)
  }

  /** One step of the walk: from position `i` to `i - 1`, from the checkpoint to zero, from zero nowhere. */
  lemma ChainStep(chain: map<Hash, Hash>, cp: Checkpoint, bs: seq<Block>, i: int)
    requires ChainHolds(chain, cp, bs) && -1 <= i <= |bs|
    ensures PathHash(cp, bs, i) in chain <==> i >= 0
    ensures i >= 0 ==> chain[PathHash(cp, bs, i)] == PathHash(cp, bs, i - 1)
  {
    if i > 0 {
      StepDown(chain, cp, bs, i);
    }
  }

  /** The newest-first search finds a path block itself, and the oldest block for the checkpoint. */
  lemma FindTarget(cp: Checkpoint, bs: seq<Block>, j: nat)
    requires DistinctHashes(cp, bs) && j <= |bs| && |bs| > 0
    ensures FindByHash(bs, HashAt(cp, bs, j), NO_BLOCK) == if j == 0 then bs[0].meta else bs[j - 1].meta
  {
    hide DistinctHashes, FindByHash;
    forall i | 0 <= i < |bs| && i + 1 != j ensures bs[i].meta.hash != HashAt(cp, bs, j) {
      SamePosition(cp, bs, i + 1, j);
    }
    if j == 0 {
      FindByHashMiss(bs, HashAt(cp, bs, j), NO_BLOCK);
    } else {
      FindByHashHit(bs, j - 1, NO_BLOCK);
    }
  }

  /** Somewhere, if on the path; nowhere otherwise. */
  lemma PathCases(cp: Checkpoint, bs: seq<Block>, h: Hash)
    ensures if OnPath(cp, bs, h)
            then exists j :: 0 <= j <= |bs| && HashAt(cp, bs, j) == h
            else forall j | 0 <= j <= |bs| :: HashAt(cp, bs, j) != h
  {
  }

  lemma StoredLookup(bs: seq<Block>, target: Hash)
    requires Storable(bs)
    ensures WellSized(Iterate(StoreOf(bs)))
    ensures ScanBack(Iterate(StoreOf(bs)), target, NO_BLOCK) == FindByHash(bs, target, NO_BLOCK)
  {
    StoreOfIterate(bs);
    ScanBackStored(bs, target, NO_BLOCK);
  }

  lemma KeptBound(bs: seq<Block>, j: nat)
    requires j < |bs|
    ensures 0 < Kept(j) <= |bs|
  {
  }

  lemma KeptHeight(cp: Checkpoint, bs: seq<Block>, j: nat)
    requires Linked(cp, bs) && j <= |bs| && |bs| > 0
    ensures (if j == 0 then bs[0].meta else bs[j - 1].meta).height == cp.height + Kept(j)
  {
  }

  /** The metadata a reorg works with: that of the target, or of the first block if the target is the checkpoint. */
  lemma StoredTarget(cp: Checkpoint, digest: Bytes -> Hash, st: State, bs: seq<Block>, target: Hash)
    requires Agree(cp, digest, st, bs, |bs|)
    ensures WellSized(Iterate(st.db))
    ensures forall j | 0 <= j <= |bs| && |bs| > 0 && HashAt(cp, bs, j) == target ::
              ScanBack(Iterate(st.db), target, NO_BLOCK).height == cp.height + Kept(j)
  {
    hide Storable, StoreOf, DistinctHashes, Chained, Iterate, ScanBack, FindByHash, MemoryHolds, Apply, WellSized;
    assert bs[..|bs|] == bs;
    StoredLookup(bs, target);
    forall j | 0 <= j <= |bs| && |bs| > 0 && HashAt(cp, bs, j) == target
      ensures FindByHash(bs, target, NO_BLOCK).height == cp.height + Kept(j)
    {
      FindTarget(cp, bs, j);
      KeptHeight(cp, bs, j);
    }
  }
}
