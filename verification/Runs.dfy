/**
 Whole runs of the node against a simple machine whose only state is the active chain: a block
 cuts the chain at its parent and goes on top. Sync feeds such a run the blocks of a trace.
 */
module Runs {
  import opened Wrappers
  import opened Bits
  import opened Bytes
  import opened KeyValue
  import opened Layout
  import opened Scans
  import opened Lookups
  import opened ChainState
  import opened Step
  import opened Miner

  // ---------------------------------------------------------------- the simple machine

  /** Position of a hash on the path, newest first. */
  function PositionOf(cp: Checkpoint, bs: seq<Block>, h: Hash): (p: Option<nat>)
    ensures p.Some? ==> p.value <= |bs| && HashAt(cp, bs, p.value) == h
  {
    if Tip(cp, bs) == h then Some(|bs|)
    else if bs == [] then None
    else
      assert forall i | 0 <= i < |bs| :: HashAt(cp, bs[..|bs| - 1], i) == HashAt(cp, bs, i);
      PositionOf(cp, bs[..|bs| - 1], h)
  }

  lemma {:induction false} PositionFound(cp: Checkpoint, bs: seq<Block>, j: nat)
    requires DistinctHashes(cp, bs) && j <= |bs|
    ensures PositionOf(cp, bs, HashAt(cp, bs, j)) == Some(j)
    decreases |bs|
  {
    if j < |bs| {
      SamePosition(cp, bs, j, |bs|);
      var front := bs[..|bs| - 1];
      assert forall i | 0 <= i <= |front| :: HashAt(cp, front, i) == HashAt(cp, bs, i);
      PositionFound(cp, front, j);
    }
  }

  /** One block: cut at its parent, put it on top; nothing if the step is not accepted. */
  ghost function ChainStepped(cp: Checkpoint, digest: Bytes -> Hash, bs: seq<Block>, bd: BlockData): Option<seq<Block>>
  {
    var p := PositionOf(cp, bs, bd.previous);
    if p.Some? && Accepts(cp, bs, p.value, bd.hash)
    then Some(bs[..p.value] + [NewBlock(digest, bd, cp.height + p.value + 1)])
    else None
  }

  ghost function Run(cp: Checkpoint, digest: Bytes -> Hash, bs: seq<Block>, bds: seq<BlockData>): Option<seq<Block>>
  {
    if bds == [] then Some(bs) else
      var r := Run(cp, digest, bs, bds[..|bds| - 1]);
      if r.None? then None else ChainStepped(cp, digest, r.value, bds[|bds| - 1])
  }

  /** Blocks that fit the layout and chains that fit a 64-bit height. */
  ghost predicate Room(cp: Checkpoint, bs: seq<Block>, bds: seq<BlockData>)
  {
    cp.height + |bs| + |bds| < HEIGHT_LIMIT && forall i | 0 <= i < |bds| :: |bds[i].commits| <= TWO_32
  }

  lemma SteppedLinked(cp: Checkpoint, digest: Bytes -> Hash, bs: seq<Block>, bd: BlockData)
    requires Linked(cp, bs) && Authentic(digest, bs) && cp.height + |bs| + 1 < HEIGHT_LIMIT && |bd.commits| <= TWO_32
    requires ChainStepped(cp, digest, bs, bd).Some?
    ensures var bs' := ChainStepped(cp, digest, bs, bd).value;
            Linked(cp, bs') && Authentic(digest, bs') && 0 < |bs'| <= |bs| + 1 && Tip(cp, bs') == bd.hash
  {
    hide Linked, Authentic, Fresh, Storable;
    var j := PositionOf(cp, bs, bd.previous).value;
    var b := NewBlock(digest, bd, cp.height + j + 1);
    LinkedPrefix(cp, bs, j);
    AuthenticPrefix(digest, bs, j);
    LinkedAppend(cp, bs[..j], b);
    AuthenticAppend(digest, bs[..j], b);
  }

  lemma {:induction false} RunLinked(cp: Checkpoint, digest: Bytes -> Hash, bs: seq<Block>, bds: seq<BlockData>)
    requires Linked(cp, bs) && Authentic(digest, bs) && Room(cp, bs, bds) && Run(cp, digest, bs, bds).Some?
    ensures var bs' := Run(cp, digest, bs, bds).value;
            Linked(cp, bs') && Authentic(digest, bs') && |bs'| <= |bs| + |bds|
            && (bds != [] ==> Tip(cp, bs') == bds[|bds| - 1].hash)
  {
    if bds != [] {
      var front := bds[..|bds| - 1];
      RunLinked(cp, digest, bs, front);
      hide Linked, Authentic;
      SteppedLinked(cp, digest, Run(cp, digest, bs, front).value, bds[|bds| - 1]);
    }
  }

  lemma {:induction false} RunPrefix(cp: Checkpoint, digest: Bytes -> Hash, bs: seq<Block>, bds: seq<BlockData>, n: nat)
    requires n <= |bds| && Run(cp, digest, bs, bds).Some?
    ensures Run(cp, digest, bs, bds[..n]).Some?
    decreases |bds|
  {
    if n < |bds| {
      var front := bds[..|bds| - 1];
      assert bds[..n] == front[..n];
      RunPrefix(cp, digest, bs, front, n);
    } else {
      assert bds[..n] == bds;
    }
  }

  // ---------------------------------------------------------------- the node follows the machine

  /** What reaches the node: a block, or the write that ends a sync. */
  datatype Event = Arrives(bd: BlockData) | Flush

  function BlocksIn(events: seq<Event>): seq<BlockData>
  {
    if events == [] then [] else
      var e := events[|events| - 1];
      BlocksIn(events[..|events| - 1]) + if e.Arrives? then [e.bd] else []
  }

  lemma {:induction false} BlocksInPrefix(events: seq<Event>, n: nat)
    requires n <= |events|
    ensures BlocksIn(events[..n]) <= BlocksIn(events)
    decreases |events|
  {
    if n < |events| {
      var front := events[..|events| - 1];
      assert front[..n] == events[..n];
      BlocksInPrefix(front, n);
    } else {
      assert events[..n] == events;
    }
  }

  /** One more event of a run. */
  lemma NextEvent(events: seq<Event>, i: nat, n: nat)
    requires i < |events| && n <= |BlocksIn(events)| && BlocksIn(events[..i]) == BlocksIn(events)[..n]
    ensures events[i].Flush? ==> BlocksIn(events[..i + 1]) == BlocksIn(events)[..n]
    ensures events[i].Arrives? ==>
              && n < |BlocksIn(events)| && events[i].bd == BlocksIn(events)[n]
              && BlocksIn(events[..i + 1]) == BlocksIn(events)[..n + 1]
  {
    assert events[..i + 1][..i] == events[..i];
    BlocksInPrefix(events, i + 1);
    if events[i].Arrives? {
      PrefixSnoc(BlocksIn(events), BlocksIn(events)[..n], events[i].bd);
    }
  }

  lemma PrefixSnoc<T>(s: seq<T>, p: seq<T>, x: T)
    requires p + [x] <= s
    ensures |p| < |s| && s[|p|] == x && s[..|p| + 1] == p + [x]
  {
    assert s[|p|] == (p + [x])[|p|];
  }

  /** No block but the last one a run comes to fails to be accepted, and that one has a parent off the active chain. */
  ghost predicate NoneRefused(cp: Checkpoint, digest: Bytes -> Hash, bs: seq<Block>, bds: seq<BlockData>)
  {
    forall i | 0 <= i < |bds| && Run(cp, digest, bs, bds[..i]).Some? ::
      Run(cp, digest, bs, bds[..i + 1]).Some? || !OnPath(cp, Run(cp, digest, bs, bds[..i]).value, bds[i].previous)
  }

  /** Each write of a run stored a prefix of the chain as it was after some of the blocks. */
  ghost predicate WritesFit(cp: Checkpoint, digest: Bytes -> Hash, bs: seq<Block>, bds: seq<BlockData>, db: Store)
  {
    exists i :: 0 <= i <= |bds| && StoresFit(db, Run(cp, digest, bs, bds[..i]))
  }

  ghost predicate StoresFit(db: Store, r: Option<seq<Block>>)
  {
    r.Some? && StoresPrefixOf(db, r.value)
  }

  lemma StepFollows(cp: Checkpoint, digest: Bytes -> Hash, bs: seq<Block>, bd: BlockData) returns (j: nat)
    requires ChainStepped(cp, digest, bs, bd).Some?
    ensures j <= |bs| && HashAt(cp, bs, j) == bd.previous && OnPath(cp, bs, bd.previous) && Accepts(cp, bs, j, bd.hash)
    ensures ChainStepped(cp, digest, bs, bd).value == bs[..j] + [NewBlock(digest, bd, cp.height + j + 1)]
  {
    j := PositionOf(cp, bs, bd.previous).value;
  }

  /**
   Every run of blocks and flushes, syncs one after the other included, in which no step is refused:
   the node halts exactly if the machine comes to a block whose parent is off its chain. Otherwise the
   three views agree on the machine's chain in the end, and after a flush the store holds all of
   it. Halt or not, after every atomic write on the way the store holds exactly a prefix of the chain as
   it was after some of the blocks.
   */
  method Feed(node: Node, events: seq<Event>) returns (o: Outcome)
    requires node.Valid() && Room(node.cp, node.active, BlocksIn(events))
    requires NoneRefused(node.cp, node.digest, node.active, BlocksIn(events))
    modifies node
    ensures o == Done <==> Run(node.cp, node.digest, old(node.active), BlocksIn(events)).Some?
    ensures o == Done ==> node.Valid() && Some(node.active) == Run(node.cp, node.digest, old(node.active), BlocksIn(events))
    ensures o == Done && events != [] && events[|events| - 1].Flush? ==>
              Storable(node.active) && node.db == StoreOf(node.active)
    ensures old(node.writes) <= node.writes
    ensures forall w | |old(node.writes)| <= w < |node.writes| ::
              WritesFit(node.cp, node.digest, old(node.active), BlocksIn(events), node.writes[w])
  {
    hide Agree, Linked, Authentic, StoresPrefixOf, Storable, StoreOf, Accepts, InAgreement, Run, ChainStepped, Room,
         DistinctHashes, WritesFit, NewBlock, BlocksIn, NoneRefused, PositionOf, OnPath;
    ghost var cp, digest, bs, writes0 := node.cp, node.digest, node.active, node.writes;
    ghost var bds, n := BlocksIn(events), 0;
    LinkedOfAgree(cp, digest, node.Snap(), bs, node.onDisk);
    RunEmpty(cp, digest, bs, bds, events);
    for i := 0 to |events|
      invariant node.Valid()
      invariant n <= |bds| && BlocksIn(events[..i]) == bds[..n]
      invariant Some(node.active) == Run(cp, digest, bs, bds[..n])
      invariant i > 0 && events[i - 1].Flush? ==> Storable(node.active) && node.db == StoreOf(node.active)
      invariant writes0 <= node.writes
      invariant forall w | |writes0| <= w < |node.writes| :: WritesFit(cp, digest, bs, bds, node.writes[w])
    {
      ghost var before, w0 := node.active, node.writes;
      NextEvent(events, i, n);
      match events[i]
      case Flush =>
        node.Write();
        WriteFits(cp, digest, bs, bds, n, before, node.db);
      case Arrives(bd) =>
        RunSnoc(cp, digest, bs, bds, n);
        RunRoom(cp, digest, bs, bds, n);
        o := node.ProcessBlock(bd);
        if o != Done {
          HaltsHere(cp, digest, bs, bds, n, before);
          if |node.writes| > |w0| {
            WholeIsPrefix(before, node.db);
            WriteFits(cp, digest, bs, bds, n, before, node.db);
          }
          return;
        }
        GoesOn(cp, digest, bs, bds, n, before);
        ghost var j := StepFollows(cp, digest, before, bd);
        forall w | |w0| <= w < |node.writes| ensures WritesFit(cp, digest, bs, bds, node.writes[w]) {
          if StoresPrefixOf(node.writes[w], before) {
            WriteFits(cp, digest, bs, bds, n, before, node.writes[w]);
          } else {
            WriteFits(cp, digest, bs, bds, n + 1, node.active, node.writes[w]);
          }
        }
        n := n + 1;
    }
    assert events[..|events|] == events;
    assert bds[..n] == bds;
    o := Done;
  }

  lemma RunEmpty(cp: Checkpoint, digest: Bytes -> Hash, bs: seq<Block>, bds: seq<BlockData>, events: seq<Event>)
    ensures Run(cp, digest, bs, bds[..0]) == Some(bs) && BlocksIn(events[..0]) == bds[..0]
  {
  }

  lemma RunSnoc(cp: Checkpoint, digest: Bytes -> Hash, bs: seq<Block>, bds: seq<BlockData>, i: nat)
    requires i < |bds| && Run(cp, digest, bs, bds[..i]).Some?
    ensures Run(cp, digest, bs, bds[..i + 1]) == ChainStepped(cp, digest, Run(cp, digest, bs, bds[..i]).value, bds[i])
  {
    assert bds[..i + 1][..i] == bds[..i];
  }

  /** A step that halts has a parent off the chain, so the machine stops too. */
  lemma HaltsHere(cp: Checkpoint, digest: Bytes -> Hash, bs: seq<Block>, bds: seq<BlockData>, n: nat,
                  before: seq<Block>)
    requires n < |bds| && Run(cp, digest, bs, bds[..n]) == Some(before) && !OnPath(cp, before, bds[n].previous)
    ensures Run(cp, digest, bs, bds).None?
  {
    hide Accepts;
    RunSnoc(cp, digest, bs, bds, n);
    if Run(cp, digest, bs, bds).Some? {
      RunPrefix(cp, digest, bs, bds, n + 1);
      var _ := StepFollows(cp, digest, before, bds[n]);
      assert false;
    }
  }

  lemma GoesOn(cp: Checkpoint, digest: Bytes -> Hash, bs: seq<Block>, bds: seq<BlockData>, n: nat, before: seq<Block>)
    requires n < |bds| && Run(cp, digest, bs, bds[..n]) == Some(before) && OnPath(cp, before, bds[n].previous)
    requires NoneRefused(cp, digest, bs, bds)
    ensures Run(cp, digest, bs, bds[..n + 1]).Some?
  {
    hide Run, OnPath;
  }

  lemma WriteFits(cp: Checkpoint, digest: Bytes -> Hash, bs: seq<Block>, bds: seq<BlockData>, i: nat, r: seq<Block>,
                  db: Store)
    requires i <= |bds| && Run(cp, digest, bs, bds[..i]) == Some(r) && StoresPrefixOf(db, r)
    ensures WritesFit(cp, digest, bs, bds, db)
  {
    hide Run, StoresPrefixOf;
    assert StoresFit(db, Run(cp, digest, bs, bds[..i]));
  }

  lemma WholeIsPrefix(bs: seq<Block>, db: Store)
    requires Storable(bs) && db == StoreOf(bs)
    ensures StoresPrefixOf(db, bs)
  {
    hide Storable, StoreOf;
    assert bs[..|bs|] == bs;
  }

  lemma LinkedOfAgree(cp: Checkpoint, digest: Bytes -> Hash, st: State, bs: seq<Block>, k: nat)
    requires Agree(cp, digest, st, bs, k)
    ensures Linked(cp, bs) && Authentic(digest, bs)
  {
  }

  lemma RunRoom(cp: Checkpoint, digest: Bytes -> Hash, bs: seq<Block>, bds: seq<BlockData>, n: nat)
    requires Linked(cp, bs) && Authentic(digest, bs) && Room(cp, bs, bds) && n < |bds|
    requires Run(cp, digest, bs, bds[..n]).Some?
    ensures var r := Run(cp, digest, bs, bds[..n]).value;
            cp.height + |r| + 1 < HEIGHT_LIMIT && |bds[n].commits| <= TWO_32 && DistinctHashes(cp, r)
  {
    RunLinked(cp, digest, bs, bds[..n]);
  }

  /** Restarting on any store a run can have left behind rebuilds exactly the chain stored there. */
  method Restart(cp: Checkpoint, digest: Bytes -> Hash, stored: Store, ghost bs: seq<Block>, ghost n: nat)
    returns (node: Node, o: Outcome)
    requires Linked(cp, bs) && Authentic(digest, bs) && n <= |bs| && Storable(bs[..n]) && stored == StoreOf(bs[..n])
    ensures fresh(node) && node.cp == cp && node.digest == digest
    ensures o == Done && node.Valid() && node.active == bs[..n] && node.db == stored
  {
    LinkedPrefix(cp, bs, n);
    AuthenticPrefix(digest, bs, n);
    hide Linked, Authentic, Storable, StoreOf, Agree, Chained, NoZeroHash;
    node := new Node.Open(cp, digest, stored);
    var count: nat;
    o, count := node.Load(bs[..n]);
    assert node.Valid();
    StoredAll(cp, digest, node.Snap(), bs[..n]);
  }

  /**
   Starting on a store in which a block has lost, changed or reordered commits: the chain below it is
   active again, and the store keeps nothing else, whatever it held above.
   */
  method RestartTampered(cp: Checkpoint, digest: Bytes -> Hash, stored: Store,
                         ghost original: seq<Block>, ghost found: seq<Block>, ghost n: nat)
    returns (node: Node, o: Outcome)
    requires Linked(cp, original) && Authentic(digest, original) && Storable(found) && stored == StoreOf(found)
    requires n < |original| && n < |found| && found[..n] == original[..n] && found[n].meta == original[n].meta
    requires found[n].commits != original[n].commits && TellsApart(digest, original[n].commits, found[n].commits)
    ensures fresh(node) && node.cp == cp && node.digest == digest
    ensures o == Done && node.Valid() && node.active == original[..n]
    ensures Storable(original[..n]) && node.db == StoreOf(original[..n])
  {
    Tampered(cp, digest, original, found, n);
    LinkedHeight(cp, original, n);
    hide Linked, Authentic, Storable, StoreOf, Agree, Chained, NoZeroHash, CorruptAt, TellsApart;
    node := new Node.Open(cp, digest, stored);
    var count: nat;
    o, count := node.Load(found);
  }

  lemma LinkedHeight(cp: Checkpoint, bs: seq<Block>, n: nat)
    requires Linked(cp, bs) && n < |bs|
    ensures bs[n].meta.height == cp.height + n + 1 && cp.height + |bs| < HEIGHT_LIMIT
  {
  }

  /** Crash anywhere in a run and restart: the chain after some of the blocks, or a prefix of it, is active again. */
  method RestartAfterCrash(cp: Checkpoint, digest: Bytes -> Hash, ghost bs: seq<Block>, ghost bds: seq<BlockData>,
                           stored: Store)
    returns (node: Node, o: Outcome, ghost i: nat, ghost n: nat)
    requires Linked(cp, bs) && Authentic(digest, bs) && Room(cp, bs, bds) && WritesFit(cp, digest, bs, bds, stored)
    ensures fresh(node) && node.cp == cp && node.digest == digest && o == Done && node.Valid() && node.db == stored
    ensures i <= |bds| && Run(cp, digest, bs, bds[..i]).Some? && n <= |Run(cp, digest, bs, bds[..i]).value|
    ensures node.active == Run(cp, digest, bs, bds[..i]).value[..n]
  {
    hide Linked, Authentic, Agree, Run, Storable, StoreOf;
    i :| 0 <= i <= |bds| && StoresFit(stored, Run(cp, digest, bs, bds[..i]));
    RunLinked(cp, digest, bs, bds[..i]);
    ghost var r := Run(cp, digest, bs, bds[..i]).value;
    n :| 0 <= n <= |r| && Storable(r[..n]) && stored == StoreOf(r[..n]);
    node, o := Restart(cp, digest, stored, r, n);
  }

  lemma StoredAll(cp: Checkpoint, digest: Bytes -> Hash, st: State, bs: seq<Block>)
    requires Agree(cp, digest, st, bs, |bs|)
    ensures Storable(bs) && st.db == StoreOf(bs)
  {
    assert bs[..|bs|] == bs;
  }

  /**
   After a flush the fingerprint of the store is that of the active chain, however it came about: a bit is set
   exactly if it is in the fingerprints of an odd number of active blocks.
   */
  lemma FlushedFingerprint(cp: Checkpoint, digest: Bytes -> Hash, st: State, bs: seq<Block>)
    requires Agree(cp, digest, st, bs, |bs|)
    ensures WellSized(Iterate(st.db)) && ScanFingerprint(Iterate(st.db)) == ChainFingerprint(bs)
    ensures forall i: nat, k: nat | i < 32 && k < 8 ::
              BitSet(ScanFingerprint(Iterate(st.db))[i], k) <==> |WithBit(bs, i, k)| % 2 == 1
  {
    StoredAll(cp, digest, st, bs);
    hide StoreOf, MemoryHolds, StoreHolds, BitSet, ScanFingerprint, ChainFingerprint, Iterate, Storable;
    StoredFingerprint(bs);
    forall i: nat, k: nat | i < 32 && k < 8
      ensures BitSet(ChainFingerprint(bs)[i], k) <==> |WithBit(bs, i, k)| % 2 == 1
    {
      FingerprintParity(bs, i, k);
    }
  }

  // ---------------------------------------------------------------- feeding a trace

  /** The blocks of a trace, oldest first: linked to one another, their hashes new, non-zero and distinct. */
  ghost predicate Traced(cp: Checkpoint, bs: seq<Block>, bds: seq<BlockData>)
  {
    && bds != []
    && (forall i {:trigger bds[i].previous} | 0 < i < |bds| :: bds[i].previous == bds[i - 1].hash)
    && (forall i | 0 <= i < |bds| :: Fresh(cp, bs, bds[i].hash))
    && (forall i, j | 0 <= i < j < |bds| :: bds[i].hash != bds[j].hash)
  }

  /** The trace as blocks on top of height `h`. */
  function NewBlocks(digest: Bytes -> Hash, bds: seq<BlockData>, h: nat): (r: seq<Block>)
    ensures |r| == |bds|
  {
    seq(|bds|, i requires 0 <= i < |bds| => NewBlock(digest, bds[i], h + 1 + i))
  }

  lemma NewBlocksSnoc(digest: Bytes -> Hash, bds: seq<BlockData>, h: nat)
    requires bds != []
    ensures var n := |bds| - 1; NewBlocks(digest, bds, h) == NewBlocks(digest, bds[..n], h) + [NewBlock(digest, bds[n], h + 1 + n)]
  {
  }

  /** Hashes along a chain cut at `j` with a trace on top. */
  lemma SyncedHashes(cp: Checkpoint, digest: Bytes -> Hash, bs: seq<Block>, bds: seq<BlockData>, j: nat)
    requires j <= |bs|
    ensures var r := bs[..j] + NewBlocks(digest, bds, cp.height + j);
            && (forall i | 0 <= i <= j :: HashAt(cp, r, i) == HashAt(cp, bs, i))
            && (forall i | j < i <= |r| :: HashAt(cp, r, i) == bds[i - j - 1].hash)
  {
  }

  /** On top of the blocks sent so far the next one has the tip as its parent and a new hash. */
  lemma TracedNext(cp: Checkpoint, digest: Bytes -> Hash, bs: seq<Block>, bds: seq<BlockData>, j: nat, n: nat)
    requires Traced(cp, bs, bds) && j <= |bs| && 0 < n < |bds|
    ensures var r := bs[..j] + NewBlocks(digest, bds[..n], cp.height + j);
            Tip(cp, r) == bds[n].previous && Fresh(cp, r, bds[n].hash)
  {
    var r := bs[..j] + NewBlocks(digest, bds[..n], cp.height + j);
    SyncedHashes(cp, digest, bs, bds[..n], j);
    hide NewBlocks, HashAt;
    assert Fresh(cp, bs, bds[n].hash);
    forall i | 0 <= i <= |r| ensures bds[n].hash != HashAt(cp, r, i) {
      if i > j {
        assert bds[..n][i - j - 1] == bds[i - j - 1];
      }
    }
  }

  lemma TracedStep(cp: Checkpoint, digest: Bytes -> Hash, bs: seq<Block>, bds: seq<BlockData>, j: nat, n: nat)
    requires Traced(cp, bs, bds) && j <= |bs| && 0 < n < |bds|
    ensures var r := bs[..j] + NewBlocks(digest, bds[..n], cp.height + j);
            ChainStepped(cp, digest, r, bds[n]) == Some(bs[..j] + NewBlocks(digest, bds[..n + 1], cp.height + j))
  {
    hide Traced, NewBlocks, NewBlock, Fresh, HashAt;
    TracedNext(cp, digest, bs, bds, j, n);
    var h := cp.height + j;
    var r := bs[..j] + NewBlocks(digest, bds[..n], h);
    assert r[..|r|] == r;
    assert bds[..n + 1][..n] == bds[..n];
    NewBlocksSnoc(digest, bds[..n + 1], h);
    ConcatAssoc(bs[..j], NewBlocks(digest, bds[..n], h), [NewBlock(digest, bds[n], h + 1 + n)]);
  }

  lemma FreshPrefix(cp: Checkpoint, bs: seq<Block>, j: nat, h: Hash)
    requires j <= |bs| && Fresh(cp, bs, h)
    ensures Fresh(cp, bs[..j], h)
  {
    assert forall i | 0 <= i <= j :: HashAt(cp, bs[..j], i) == HashAt(cp, bs, i);
  }

  lemma TracedFirst(cp: Checkpoint, digest: Bytes -> Hash, bs: seq<Block>, bds: seq<BlockData>, j: nat)
    requires DistinctHashes(cp, bs) && j <= |bs| && (j > 0 || bs == [])
    requires bds != [] && Fresh(cp, bs, bds[0].hash) && bds[0].previous == HashAt(cp, bs, j)
    ensures ChainStepped(cp, digest, bs, bds[0]) == Some(bs[..j] + NewBlocks(digest, bds[..1], cp.height + j))
  {
    hide DistinctHashes, PositionOf, Fresh, NewBlock, HashAt, NewBlocks;
    PositionFound(cp, bs, j);
    FreshPrefix(cp, bs, j, bds[0].hash);
    NewBlocksOne(digest, bds, cp.height + j);
  }

  lemma NewBlocksOne(digest: Bytes -> Hash, bds: seq<BlockData>, h: nat)
    requires bds != []
    ensures NewBlocks(digest, bds[..1], h) == [NewBlock(digest, bds[0], h + 1)]
  {
  }

  /**
   Feeding a trace whose ancestor is the tip or a stored block of the active chain: the run is
   accepted and ends with the old chain cut at the ancestor followed by the traced blocks.
   */
  lemma {:induction false} SyncRun(cp: Checkpoint, digest: Bytes -> Hash, bs: seq<Block>, bds: seq<BlockData>,
                                   j: nat, n: nat)
    requires Linked(cp, bs) && Traced(cp, bs, bds) && j <= |bs| && (j > 0 || bs == [])
    requires bds[0].previous == HashAt(cp, bs, j) && 0 < n <= |bds|
    ensures Run(cp, digest, bs, bds[..n]) == Some(bs[..j] + NewBlocks(digest, bds[..n], cp.height + j))
    ensures Tip(cp, bs[..j] + NewBlocks(digest, bds[..n], cp.height + j)) == bds[n - 1].hash
    decreases n
  {
    hide DistinctHashes, Chained;
    SyncedHashes(cp, digest, bs, bds[..n], j);
    assert bds[..n][..n - 1] == bds[..n - 1];
    if n == 1 {
      assert bds[..0] == [];
      assert Fresh(cp, bs, bds[0].hash);
      TracedFirst(cp, digest, bs, bds, j);
    } else {
      SyncRun(cp, digest, bs, bds, j, n - 1);
      TracedStep(cp, digest, bs, bds, j, n - 1);
    }
  }

  /** Only the first block of a trace can have a parent other than the current tip. */
  lemma SyncReorgsOnce(cp: Checkpoint, digest: Bytes -> Hash, bs: seq<Block>, bds: seq<BlockData>, j: nat, n: nat)
    requires Linked(cp, bs) && Traced(cp, bs, bds) && j <= |bs| && (j > 0 || bs == [])
    requires bds[0].previous == HashAt(cp, bs, j) && 0 < n < |bds|
    ensures Run(cp, digest, bs, bds[..n]).Some? && bds[n].previous == Tip(cp, Run(cp, digest, bs, bds[..n]).value)
  {
    SyncRun(cp, digest, bs, bds, j, n);
  }

  /** An accepted first block has a good ancestor. */
  lemma FirstStep(cp: Checkpoint, digest: Bytes -> Hash, bs: seq<Block>, bds: seq<BlockData>)
    requires bds != [] && Run(cp, digest, bs, bds[..1]).Some?
    ensures exists j :: 0 <= j <= |bs| && HashAt(cp, bs, j) == bds[0].previous && (j > 0 || bs == [])
  {
    assert bds[..1][..0] == [];
    assert Run(cp, digest, bs, bds[..1]) == ChainStepped(cp, digest, bs, bds[0]);
    var j := PositionOf(cp, bs, bds[0].previous).value;
    assert HashAt(cp, bs, j) == bds[0].previous;
  }

  lemma TracedSome(cp: Checkpoint, bs: seq<Block>, bds: seq<BlockData>)
    requires Traced(cp, bs, bds)
    ensures bds != []
  {
  }

  /** A trace is accepted exactly if its ancestor is on the active chain and not the checkpoint under a non-empty one. */
  lemma SyncAccepted(cp: Checkpoint, digest: Bytes -> Hash, bs: seq<Block>, bds: seq<BlockData>)
    requires Linked(cp, bs) && Traced(cp, bs, bds)
    ensures Run(cp, digest, bs, bds).Some? <==>
              exists j :: 0 <= j <= |bs| && HashAt(cp, bs, j) == bds[0].previous && (j > 0 || bs == [])
  {
    TracedSome(cp, bs, bds);
    hide Linked, Traced, NewBlocks, HashAt, Run;
    assert bds[..|bds|] == bds;
    if j :| 0 <= j <= |bs| && HashAt(cp, bs, j) == bds[0].previous && (j > 0 || bs == []) {
      SyncRun(cp, digest, bs, bds, j, |bds|);
    }
    if Run(cp, digest, bs, bds).Some? {
      RunPrefix(cp, digest, bs, bds, 1);
      FirstStep(cp, digest, bs, bds);
    }
  }

  // ---------------------------------------------------------------- known defects

  /**
   A reorg to the checkpoint under a non-empty chain does not halt. It leaves the first old block
   in the store below a new block that names the checkpoint as its parent, which no load accepts.
   */
  lemma CheckpointReorgUnloadable(cp: Checkpoint, digest: Bytes -> Hash, st: State, bs: seq<Block>, k: nat,
                                  bd: BlockData)
    requires Agree(cp, digest, st, bs, k) && bs != [] && bd.previous == cp.hash
    requires cp.height + |bs| + 1 < HEIGHT_LIMIT && |bd.commits| <= TWO_32
    ensures |st.lib| == |bs|
    ensures var st' := Ingested(digest, Positioned(cp, st, bs, 0), bd);
            var left := [bs[0], NewBlock(digest, bd, cp.height + 2)];
            Storable(left) && Apply(st'.db, st'.batch) == StoreOf(left) && !Chained(cp, left)
  {
    hide Storable, Apply, StoreOf, StoreOps, RemoveOps, HeightsBelow, Chained, DistinctHashes, ChainHolds, Authentic,
         StoreHolds, CutFrom;
    PositionedMemory(cp, st, bs, 0);
    var m := PositionedStore(cp, digest, st, bs, k, 0);
    LeftOver(cp, digest, bs, bd);
    assert bs[..1] == [bs[0]];
    IngestedStore(digest, Positioned(cp, st, bs, 0), bs[..1], m, bd);
  }

  lemma LeftOver(cp: Checkpoint, digest: Bytes -> Hash, bs: seq<Block>, bd: BlockData)
    requires Linked(cp, bs) && bs != [] && bd.previous == cp.hash
    requires cp.height + |bs| + 1 < HEIGHT_LIMIT && |bd.commits| <= TWO_32
    ensures var left := [bs[0]] + [NewBlock(digest, bd, cp.height + 2)];
            Storable(left) && !Chained(cp, left) && left == [bs[0], NewBlock(digest, bd, cp.height + 2)]
  {
    FirstIsNew(cp, bs);
    var left := [bs[0], NewBlock(digest, bd, cp.height + 2)];
    assert left == [bs[0]] + [NewBlock(digest, bd, cp.height + 2)];
    assert left[1].meta.previous == cp.hash != HashAt(cp, left, 1);
  }

  lemma FirstIsNew(cp: Checkpoint, bs: seq<Block>)
    requires Linked(cp, bs) && bs != []
    ensures bs[0].meta.hash != cp.hash
  {
    assert HashAt(cp, bs, 1) == bs[0].meta.hash && HashAt(cp, bs, 0) == cp.hash;
  }

  /**
   The shortest such run: two blocks on the checkpoint, one after the other, on a new node. It
   goes through without a halt, agreement is lost, and after a flush a restart halts.
   */
  method CheckpointReorgRun(cp: Checkpoint, digest: Bytes -> Hash, a: Hash, b: Hash)
    returns (first: Outcome, second: Outcome, restart: Outcome)
    requires cp.hash != ZERO && a != ZERO && b != ZERO && a != cp.hash && cp.height + 3 < HEIGHT_LIMIT
    ensures first == Done && second == Done && restart != Done
  {
    hide Agree, Storable, StoreOf, Chained, Apply, InAgreement, Linked, Fresh, StoresPrefixOf, Ingested, Positioned,
         HashAt, NewBlock;
    var bda, bdb := BlockData(a, cp.hash, []), BlockData(b, cp.hash, []);
    ghost var ba := NewBlock(digest, bda, cp.height + 1);
    NewBlockHash(digest, bda, cp.height + 1);
    TwoHashes(cp, ba, ba, ZERO);
    ShortLists(ba, ba);
    var node := new Node(cp, digest);
    first := OnTip(node, bda);
    ghost var st, k := node.Snap(), node.onDisk;
    CheckpointHash(cp, [ba]);
    second := node.ProcessBlock(bdb);
    CheckpointReorgUnloadable(cp, digest, st, [ba], k, bdb);
    node.Write();
    ghost var left := [ba, NewBlock(digest, bdb, cp.height + 2)];
    var again := new Node.Open(cp, digest, node.db);
    LeftAuthentic(digest, ba, bda, bdb, cp.height);
    var count: nat;
    restart, count := again.Load(left);
  }

  lemma CheckpointHash(cp: Checkpoint, bs: seq<Block>)
    ensures HashAt(cp, bs, 0) == cp.hash
  {
  }

  lemma LeftAuthentic(digest: Bytes -> Hash, first: Block, bda: BlockData, bdb: BlockData, h: nat)
    requires first == NewBlock(digest, bda, h + 1) && bda.hash != ZERO && bdb.hash != ZERO
    ensures var left := [first, NewBlock(digest, bdb, h + 2)]; Authentic(digest, left) && NoZeroHash(left, |left|)
  {
  }

  /**
   `Chain` is never pruned. After a reorg from position `j` every block it abandons is still known, and
   a block on top of one of them halts the node; but the store left behind restarts on the chain
   after the reorg.
   */
  method AbandonedBranch(node: Node, c: BlockData, d: BlockData, ghost j: nat, ghost i: nat)
    returns (first: Outcome, second: Outcome, again: Node, restart: Outcome)
    requires node.Valid() && Room(node.cp, node.active, [c, d])
    requires 0 < j <= i < |node.active| && Fresh(node.cp, node.active, c.hash)
    requires c.previous == HashAt(node.cp, node.active, j) && d.previous == node.active[i].meta.hash
    modifies node
    ensures first == Done && second == Halt(PastCheckpoint) && restart == Done
    ensures fresh(again) && again.Valid()
    ensures again.active == old(node.active)[..j] + [NewBlock(node.digest, c, node.cp.height + j + 1)]
  {
    hide Agree, Linked, Authentic, StoresPrefixOf, Storable, StoreOf, InAgreement, NewBlock, Accepts, OnPath,
         Ingested, Positioned;
    ghost var cp, digest, bs, st, k := node.cp, node.digest, node.active, node.Snap(), node.onDisk;
    assert [c, d][0] == c && [c, d][1] == d;
    BranchOff(cp, digest, st, bs, k, c, d.previous, j, i);
    first := node.ProcessBlock(c);
    ghost var bs' := node.active;
    LinkedOfAgree(cp, digest, node.Snap(), bs', node.onDisk);
    second := node.ProcessBlock(d);
    assert bs'[..|bs'|] == bs';
    again, restart := Restart(node.cp, node.digest, node.db, bs', |bs'|);
  }

  lemma BranchOff(cp: Checkpoint, digest: Bytes -> Hash, st: State, bs: seq<Block>, k: nat, c: BlockData, h: Hash,
                  j: nat, i: nat)
    requires Agree(cp, digest, st, bs, k) && 0 < j <= i < |bs| && Fresh(cp, bs, c.hash)
    requires c.previous == HashAt(cp, bs, j) && h == bs[i].meta.hash
    ensures OnPath(cp, bs, c.previous) && Accepts(cp, bs, j, c.hash) && h in st.chain
    ensures !OnPath(cp, bs[..j] + [NewBlock(digest, c, cp.height + j + 1)], h)
  {
    hide StoreHolds, Storable, Authentic, Chained;
    FreshPrefix(cp, bs, j, c.hash);
    assert HashAt(cp, bs, i + 1) == h;
    PathIsKnown(cp, digest, st, bs, k, h);
    var bs' := bs[..j] + [NewBlock(digest, c, cp.height + j + 1)];
    forall m | 0 <= m <= |bs'| ensures HashAt(cp, bs', m) != h {
      if m <= j {
        assert HashAt(cp, bs', m) == HashAt(cp, bs, m);
        SamePosition(cp, bs, m, i + 1);
      }
    }
  }

  /** The shortest such run, on a new node: `a` on the checkpoint, `b` and then `c` on `a`, and `d` on `b`. */
  method AbandonedBranchRun(cp: Checkpoint, digest: Bytes -> Hash, a: Hash, b: Hash, c: Hash, d: Hash)
    returns (o: seq<Outcome>, again: Node, restart: Outcome)
    requires cp.height + 5 < HEIGHT_LIMIT && cp.hash != ZERO
    requires a !in {ZERO, cp.hash} && b !in {ZERO, cp.hash, a} && c !in {ZERO, cp.hash, a, b}
    ensures o == [Done, Done, Done, Halt(PastCheckpoint)] && restart == Done
    ensures fresh(again) && again.Valid()
    ensures again.active == [NewBlock(digest, BlockData(a, cp.hash, []), cp.height + 1),
                             NewBlock(digest, BlockData(c, a, []), cp.height + 2)]
  {
    hide Fresh, Agree, NewBlock, HashAt, Linked;
    var bda, bdb, bdc := BlockData(a, cp.hash, []), BlockData(b, a, []), BlockData(c, a, []);
    ghost var ba, bb, bc := NewBlock(digest, bda, cp.height + 1), NewBlock(digest, bdb, cp.height + 2),
      NewBlock(digest, bdc, cp.height + 2);
    NewBlockHash(digest, bda, cp.height + 1);
    NewBlockHash(digest, bdb, cp.height + 2);
    TwoHashes(cp, ba, bb, c);
    ShortLists(ba, bb);
    ShortLists(ba, bc);
    var node, first, second := TwoBlocks(cp, digest, bda, bdb);
    var third, fourth;
    third, fourth, again, restart := AbandonedBranch(node, bdc, BlockData(d, b, []), 1, 1);
    o := [first, second, third, fourth];
  }

  lemma NewBlockHash(digest: Bytes -> Hash, bd: BlockData, height: nat)
    ensures NewBlock(digest, bd, height).meta.hash == bd.hash
  {
  }

  lemma TwoHashes(cp: Checkpoint, a: Block, b: Block, c: Hash)
    ensures Tip(cp, []) == cp.hash && HashAt(cp, [], 0) == cp.hash
    ensures Tip(cp, [a]) == a.meta.hash == HashAt(cp, [a, b], 1)
    ensures a.meta.hash !in {ZERO, cp.hash} ==> Fresh(cp, [], a.meta.hash)
    ensures b.meta.hash !in {ZERO, cp.hash, a.meta.hash} ==> Fresh(cp, [a], b.meta.hash)
    ensures c !in {ZERO, cp.hash, a.meta.hash, b.meta.hash} ==> Fresh(cp, [a, b], c)
  {
  }

  lemma ShortLists<T>(x: T, y: T)
    ensures [] + [x] == [x] && [x] + [y] == [x, y] && [x, y][..1] == [x]
  {
  }

  /** Two blocks on a new node, one on top of the other. */
  method TwoBlocks(cp: Checkpoint, digest: Bytes -> Hash, bda: BlockData, bdb: BlockData)
    returns (node: Node, first: Outcome, second: Outcome)
    requires cp.height + 3 < HEIGHT_LIMIT && cp.hash != ZERO && bda.commits == [] && bdb.commits == []
    requires bda.previous == cp.hash && bdb.previous == bda.hash
    requires bda.hash !in {ZERO, cp.hash} && bdb.hash !in {ZERO, cp.hash, bda.hash}
    ensures fresh(node) && node.cp == cp && node.digest == digest && node.Valid() && first == Done && second == Done
    ensures node.active == [NewBlock(digest, bda, cp.height + 1), NewBlock(digest, bdb, cp.height + 2)]
  {
    hide Fresh, Agree, NewBlock, Tip, Linked;
    ghost var ba, bb := NewBlock(digest, bda, cp.height + 1), NewBlock(digest, bdb, cp.height + 2);
    NewBlockHash(digest, bda, cp.height + 1);
    NewBlockHash(digest, bdb, cp.height + 2);
    TwoHashes(cp, ba, bb, ZERO);
    ShortLists(ba, bb);
    node := new Node(cp, digest);
    first := OnTip(node, bda);
    second := OnTip(node, bdb);
  }

  /** A fresh block on the tip. */
  method OnTip(node: Node, bd: BlockData) returns (o: Outcome)
    requires node.Valid() && Room(node.cp, node.active, [bd])
    requires bd.previous == Tip(node.cp, node.active) && Fresh(node.cp, node.active, bd.hash)
    modifies node
    ensures o == Done && node.Valid()
    ensures node.active == old(node.active) + [NewBlock(node.digest, bd, node.cp.height + |old(node.active)| + 1)]
  {
    hide Agree, InAgreement, NewBlock, Ingested, Positioned, Fresh;
    ghost var bs := node.active;
    assert [bd][0] == bd && bs[..|bs|] == bs;
    assert Accepts(node.cp, bs, |bs|, bd.hash);
    o := node.ProcessBlock(bd);
  }
}
