/**
 The chain the node holds in three places: the in-memory child-to-parent map, libcomb's
 loaded blocks, and the store behind its pending batch. This module says what it means for
 the three to agree on one block list and which changes keep them in agreement.
 */
module ChainState {
  import opened Bytes
  import opened KeyValue
  import opened Layout
  import opened Scans

  /** The hard-wired block below which the node never goes. */
  datatype Checkpoint = Checkpoint(hash: Hash, height: nat)

  /** A parsed Bitcoin block as the tracers hand it over. */
  datatype BlockData = BlockData(hash: Hash, previous: Hash, commits: seq<Hash>)

  const BATCH_CAPACITY: nat := 10000

  // ---------------------------------------------------------------- fingerprints

  function Flatten(cs: seq<Hash>): Bytes
  {
    if cs == [] then [] else Flatten(cs[..|cs| - 1]) + cs[|cs| - 1]
  }

  /** `db_compute_block_fingerprint`, with SHA-256 as an uninterpreted `digest`. */
  function Fingerprint(digest: Bytes -> Hash, commits: seq<Hash>): Hash
  {
    if commits == [] then ZERO else digest(Flatten(commits))
  }

  lemma {:induction false} FlattenConcat(a: seq<Hash>, b: seq<Hash>)
    ensures Flatten(a + b) == Flatten(a) + Flatten(b)
  {
    if b == [] {
      assert a + b == a && Flatten(a) + [] == Flatten(a);
    } else {
      var n := |b| - 1;
      FlattenConcat(a, b[..n]);
      assert (a + b)[..|a + b| - 1] == a + b[..n];
      ConcatAssoc(Flatten(a), Flatten(b[..n]), b[n]);
    }
  }

  lemma {:induction false} FlattenLength(hs: seq<Hash>)
    ensures |Flatten(hs)| == 32 * |hs|
  {
    if hs != [] {
      FlattenLength(hs[..|hs| - 1]);
    }
  }

  /** 32 bytes for each hash, one after another. */
  ghost predicate Concatenates(data: Bytes, hs: seq<Hash>)
  {
    |data| == 32 * |hs| && forall i {:trigger hs[i]} | 0 <= i < |hs| :: data[32 * i..32 * i + 32] == hs[i]
  }

  lemma {:induction false} ConcatenatesFlat(data: Bytes, hs: seq<Hash>)
    ensures Concatenates(data, hs) <==> data == Flatten(hs)
  {
    FlattenLength(hs);
    if hs != [] && |data| == 32 * |hs| {
      var n := |hs| - 1;
      var front := data[..32 * n];
      FlattenLength(hs[..n]);
      ConcatenatesFlat(front, hs[..n]);
      assert data == front + data[32 * n..32 * n + 32];
      if data == Flatten(hs) {
        assert front == Flatten(hs[..n]) && data[32 * n..32 * n + 32] == hs[n];
      }
      forall i | 0 <= i < n ensures front[32 * i..32 * i + 32] == data[32 * i..32 * i + 32] && hs[..n][i] == hs[i] {}
    }
  }

  /** The fingerprint of a block is the digest of all its commits in order, and zero if there are none. */
  lemma FingerprintOfAll(digest: Bytes -> Hash, commits: seq<Hash>)
    ensures commits == [] ==> Fingerprint(digest, commits) == ZERO
    ensures commits != [] ==> exists data :: Concatenates(data, commits) && Fingerprint(digest, commits) == digest(data)
  {
    ConcatenatesFlat(Flatten(commits), commits);
  }

  /** `digest` tells two lists of commits apart: no collision between them, and no digest that is zero beside an empty one. */
  ghost predicate TellsApart(digest: Bytes -> Hash, a: seq<Hash>, b: seq<Hash>)
  {
    && (a != [] && b != [] ==> forall x, y | Concatenates(x, a) && Concatenates(y, b) && x != y :: digest(x) != digest(y))
    && (a == [] ==> forall y | Concatenates(y, b) && b != [] :: digest(y) != ZERO)
    && (b == [] ==> forall x | Concatenates(x, a) && a != [] :: digest(x) != ZERO)
  }

  lemma FlattenInjective(a: seq<Hash>, b: seq<Hash>)
    ensures Flatten(a) == Flatten(b) <==> a == b
  {
    ConcatenatesFlat(Flatten(a), a);
    ConcatenatesFlat(Flatten(b), b);
    if Flatten(a) == Flatten(b) {
      var data := Flatten(a);
      forall i | 0 <= i < |a| ensures a[i] == b[i] {
        assert data[32 * i..32 * i + 32] == a[i];
        assert data[32 * i..32 * i + 32] == b[i];
      }
    }
  }

  /** Unless the digest fails to tell them apart, two blocks have the same fingerprint exactly if they have the same commits. */
  lemma FingerprintTells(digest: Bytes -> Hash, a: seq<Hash>, b: seq<Hash>)
    requires TellsApart(digest, a, b)
    ensures Fingerprint(digest, a) == Fingerprint(digest, b) <==> a == b
  {
    FingerprintOfAll(digest, a);
    FingerprintOfAll(digest, b);
    ConcatenatesFlat(Flatten(a), a);
    ConcatenatesFlat(Flatten(b), b);
    FlattenInjective(a, b);
  }

  function NewBlock(digest: Bytes -> Hash, bd: BlockData, height: nat): Block
  {
    Block(Metadata(height, bd.hash, bd.previous, Fingerprint(digest, bd.commits)), bd.commits)
  }

  // ---------------------------------------------------------------- linked block lists

  /** The hash after `i` blocks: the checkpoint's for zero. */
  function HashAt(cp: Checkpoint, bs: seq<Block>, i: nat): Hash
    requires i <= |bs|
  {
    if i == 0 then cp.hash else bs[i - 1].meta.hash
  }

  function Tip(cp: Checkpoint, bs: seq<Block>): Hash
  {
    HashAt(cp, bs, |bs|)
  }

  /** Contiguous heights and parent links from the checkpoint up: what loading checks. */
  ghost predicate Chained(cp: Checkpoint, bs: seq<Block>)
  {
    && (forall i | 0 <= i < |bs| :: bs[i].meta.height == cp.height + 1 + i)
    && (forall i {:trigger HashAt(cp, bs, i)} | 0 <= i < |bs| :: bs[i].meta.previous == HashAt(cp, bs, i))
  }

  /** No hash is zero and none repeats, the checkpoint's included. */
  ghost predicate DistinctHashes(cp: Checkpoint, bs: seq<Block>)
  {
    && (forall i | 0 <= i <= |bs| :: HashAt(cp, bs, i) != ZERO)
    && (forall i, j | 0 <= i < j <= |bs| :: HashAt(cp, bs, i) != HashAt(cp, bs, j))
  }

  ghost predicate Linked(cp: Checkpoint, bs: seq<Block>)
  {
    && Chained(cp, bs)
    && DistinctHashes(cp, bs)
    && cp.height + |bs| < HEIGHT_LIMIT
    && (forall i | 0 <= i < |bs| :: |bs[i].commits| <= TWO_32)
  }

  ghost predicate Authentic(digest: Bytes -> Hash, bs: seq<Block>)
  {
    forall i | 0 <= i < |bs| :: bs[i].meta.fingerprint == Fingerprint(digest, bs[i].commits)
  }

  lemma LinkedStorable(cp: Checkpoint, bs: seq<Block>)
    requires Linked(cp, bs)
    ensures Storable(bs)
  {
  }

  lemma LinkedPrefix(cp: Checkpoint, bs: seq<Block>, n: nat)
    requires Linked(cp, bs) && n <= |bs|
    ensures Linked(cp, bs[..n]) && Storable(bs[..n])
    ensures forall i | 0 <= i <= n :: HashAt(cp, bs[..n], i) == HashAt(cp, bs, i)
  {
    assert forall i | 0 <= i <= n :: HashAt(cp, bs[..n], i) == HashAt(cp, bs, i);
    assert forall i | 0 <= i < n :: bs[..n][i] == bs[i];
  }

  /** Where the heights of a linked list lie relative to position `n`. */
  lemma LinkedHeights(cp: Checkpoint, bs: seq<Block>, n: nat)
    requires Linked(cp, bs) && n <= |bs|
    ensures Storable(bs) && HeightsBelow(bs[..n], cp.height + n + 1) && HeightsFrom(bs[n..], cp.height + n + 1)
  {
    assert forall i | 0 <= i < |bs[n..]| :: bs[n..][i] == bs[n + i];
  }

  lemma HashAtAppend(cp: Checkpoint, bs: seq<Block>, b: Block)
    ensures forall i | 0 <= i <= |bs| :: HashAt(cp, bs + [b], i) == HashAt(cp, bs, i)
    ensures HashAt(cp, bs + [b], |bs| + 1) == b.meta.hash
  {
  }

  ghost predicate Fresh(cp: Checkpoint, bs: seq<Block>, hash: Hash)
  {
    hash != ZERO && forall i | 0 <= i <= |bs| :: hash != HashAt(cp, bs, i)
  }

  lemma ChainedAppend(cp: Checkpoint, bs: seq<Block>, b: Block)
    requires Chained(cp, bs)
    requires b.meta.height == cp.height + |bs| + 1 && b.meta.previous == Tip(cp, bs)
    ensures Chained(cp, bs + [b])
  {
    var bs' := bs + [b];
    HashAtAppend(cp, bs, b);
    forall i | 0 <= i < |bs'|
      ensures bs'[i].meta.height == cp.height + 1 + i && bs'[i].meta.previous == HashAt(cp, bs', i)
    {
      if i < |bs| { assert bs'[i] == bs[i]; }
    }
  }

  lemma DistinctAppend(cp: Checkpoint, bs: seq<Block>, b: Block)
    requires DistinctHashes(cp, bs) && Fresh(cp, bs, b.meta.hash)
    ensures DistinctHashes(cp, bs + [b])
  {
    HashAtAppend(cp, bs, b);
  }

  lemma LinkedAppend(cp: Checkpoint, bs: seq<Block>, b: Block)
    requires Linked(cp, bs) && cp.height + |bs| + 1 < HEIGHT_LIMIT && |b.commits| <= TWO_32
    requires b.meta.height == cp.height + |bs| + 1 && b.meta.previous == Tip(cp, bs)
    requires Fresh(cp, bs, b.meta.hash)
    ensures Linked(cp, bs + [b]) && Storable(bs + [b])
  {
    hide Chained, DistinctHashes, Fresh, Storable;
    ChainedAppend(cp, bs, b);
    DistinctAppend(cp, bs, b);
    LinkedStorable(cp, bs + [b]);
  }

  // ---------------------------------------------------------------- the three views

  /** A snapshot of everything the node holds. `lib` is libcomb's stack of loaded blocks. */
  datatype State = State(
    height: nat, hash: Hash, chain: map<Hash, Hash>,
    lib: seq<seq<Hash>>,
    db: Store, batch: seq<Op>, cached: nat)

  function CommitLists(bs: seq<Block>): (r: seq<seq<Hash>>)
    ensures |r| == |bs|
  {
    seq(|bs|, i requires 0 <= i < |bs| => bs[i].commits)
  }

  ghost predicate ParentKnown(chain: map<Hash, Hash>, h: Hash)
  {
    h in chain && chain[h] in chain
  }

  /** Every known hash but the checkpoint's has a known parent, abandoned branches included. */
  ghost predicate Rooted(chain: map<Hash, Hash>, root: Hash)
  {
    forall h {:trigger ParentKnown(chain, h)} | h in chain && h != root :: ParentKnown(chain, h)
  }

  lemma RootedExtend(chain: map<Hash, Hash>, root: Hash, h: Hash, parent: Hash)
    requires Rooted(chain, root) && parent in chain
    ensures Rooted(chain[h := parent], root)
  {
    var chain' := chain[h := parent];
    forall x | x in chain' && x != root ensures ParentKnown(chain', x) {
      assert x != h ==> ParentKnown(chain, x);
    }
  }

  /** `Chain` maps each active block to its parent and the checkpoint to zero. Abandoned blocks may stay, linked to known ones. */
  ghost predicate ChainHolds(chain: map<Hash, Hash>, cp: Checkpoint, bs: seq<Block>)
  {
    && ZERO !in chain
    && cp.hash in chain && chain[cp.hash] == ZERO && Rooted(chain, cp.hash)
    && forall i {:trigger HashAt(cp, bs, i)} | 0 <= i < |bs| ::
         bs[i].meta.hash in chain && chain[bs[i].meta.hash] == HashAt(cp, bs, i)
  }

  /** Memory and libcomb hold exactly `bs` above the checkpoint. */
  ghost predicate MemoryHolds(cp: Checkpoint, st: State, bs: seq<Block>)
  {
    && st.hash == Tip(cp, bs)
    && st.height == cp.height + |bs|
    && st.lib == CommitLists(bs)
    && ChainHolds(st.chain, cp, bs)
  }

  /** The store holds the first `k` blocks; the pending batch is that of the rest and would bring it to all of them. */
  ghost predicate StoreHolds(st: State, bs: seq<Block>, k: nat)
    requires Storable(bs) && k <= |bs| && Storable(bs[..k])
  {
    && st.db == StoreOf(bs[..k])
    && st.batch == PendingOps(st.db, bs[k..])
    && Apply(st.db, st.batch) == StoreOf(bs)
    && st.cached == |bs| - k < BATCH_CAPACITY
  }

  /** Memory, libcomb and the store behind its batch all hold the linked list `bs`, of which `k` blocks are on disk. */
  ghost predicate Agree(cp: Checkpoint, digest: Bytes -> Hash, st: State, bs: seq<Block>, k: nat)
  {
    && Linked(cp, bs) && Authentic(digest, bs) && k <= |bs|
    && MemoryHolds(cp, st, bs)
    && Storable(bs) && Storable(bs[..k]) && StoreHolds(st, bs, k)
  }

  ghost predicate InAgreement(cp: Checkpoint, digest: Bytes -> Hash, st: State)
  {
    exists bs, k :: Agree(cp, digest, st, bs, k)
  }

  /** `n` steps from child to parent. */
  function Walk(chain: map<Hash, Hash>, h: Hash, n: nat): Hash
    decreases n
  {
    if n == 0 then h else if h in chain then Walk(chain, chain[h], n - 1) else ZERO
  }

  /** Following `Chain` from the tip visits the active blocks newest first and ends at the checkpoint. */
  lemma {:induction false} WalkVisits(chain: map<Hash, Hash>, cp: Checkpoint, bs: seq<Block>, from: nat, n: nat)
    requires ChainHolds(chain, cp, bs) && n <= from <= |bs|
    ensures Walk(chain, HashAt(cp, bs, from), n) == HashAt(cp, bs, from - n)
    decreases n
  {
    if n > 0 {
      WalkVisits(chain, cp, bs, from - 1, n - 1);
    }
  }

  lemma StoreOfInjective(a: seq<Block>, b: seq<Block>)
    requires Storable(a) && Storable(b) && StoreOf(a) == StoreOf(b)
    ensures a == b
  {
    ScanStored(a, 0, HEIGHT_LIMIT - 1);
    ScanStored(b, 0, HEIGHT_LIMIT - 1);
    WithinAll(a);
    WithinAll(b);
    if a != [] && b != [] {
      assert a == ([DUMMY] + a)[1..] && b == ([DUMMY] + b)[1..];
    }
  }

  /** A state agrees with at most one block list and one split between disk and batch. */
  lemma AgreeUnique(cp: Checkpoint, digest: Bytes -> Hash, st: State, a: seq<Block>, j: nat, b: seq<Block>, k: nat)
    requires Agree(cp, digest, st, a, j) && Agree(cp, digest, st, b, k)
    ensures a == b && j == k
  {
    StoreOfInjective(a, b);
  }

  // ---------------------------------------------------------------- extending

  lemma {:induction false} RemoveNothing(es: seq<Entry>, p: Bytes)
    requires Below(es, p)
    ensures RemoveOps(es, p) == []
  {
    if es != [] {
      var n := |es| - 1;
      RemoveNothing(es[..n], p);
      var k := es[n].key;
      if HasPrefix(k, p) {
        assert k == p + k[|p|..];
        LessConcat(p, p, k[|p|..], []);
        assert p + [] == p;
        LessIrreflexive(p);
        assert false;
      }
    }
  }

  /** No stored key belongs to a height above the stored blocks. */
  lemma NothingToRemove(bs: seq<Block>, h: nat)
    requires Storable(bs) && HeightsBelow(bs, h) && h < TWO_64
    ensures RemoveOps(Iterate(StoreOf(bs)), BlockKey(h)) == []
  {
    hide Storable, StoreOf, HeightsBelow, BlocksEntries, RemoveOps, BlockKey, Less, Iterate;
    StoreOfIterate(bs);
    BlocksEntriesBounds(bs, h);
    VersionKeyFirst(h);
    RemoveNothing(AllEntries(bs), BlockKey(h));
  }

  /** The batch `db_process_block` adds for a block on top of the stored list. */
  lemma ExtendStore(db: Store, batch: seq<Op>, bs: seq<Block>, k: nat, b: Block)
    requires Storable(bs + [b]) && Storable(bs) && k <= |bs| && Storable(bs[..k])
    requires db == StoreOf(bs[..k]) && Apply(db, batch) == StoreOf(bs)
    ensures Apply(db, batch + RemoveOps(Iterate(db), BlockKey(b.meta.height)) + StoreOps(b)) == StoreOf(bs + [b])
  {
    hide Apply, StoreOps;
    assert HeightsBelow(bs[..k], b.meta.height) by {
      assert forall i | 0 <= i < k :: bs[..k][i] == (bs + [b])[i];
      assert b == (bs + [b])[|bs|];
    }
    NothingToRemove(bs[..k], b.meta.height);
    assert batch + [] == batch;
    ApplyConcat(db, batch, StoreOps(b));
    StoreOfAppend(bs, b);
  }

  lemma TipIsKnown(chain: map<Hash, Hash>, cp: Checkpoint, bs: seq<Block>)
    requires ChainHolds(chain, cp, bs)
    ensures Tip(cp, bs) in chain
  {
    if bs != [] {
      StepDown(chain, cp, bs, |bs|);
    }
  }

  lemma ChainExtend(chain: map<Hash, Hash>, cp: Checkpoint, bs: seq<Block>, b: Block)
    requires ChainHolds(chain, cp, bs) && Fresh(cp, bs, b.meta.hash)
    ensures ChainHolds(chain[b.meta.hash := Tip(cp, bs)], cp, bs + [b])
  {
    var bs' := bs + [b];
    HashAtAppend(cp, bs, b);
    var chain' := chain[b.meta.hash := Tip(cp, bs)];
    assert HashAt(cp, bs, 0) == cp.hash;
    TipIsKnown(chain, cp, bs);
    RootedExtend(chain, cp.hash, b.meta.hash, Tip(cp, bs));
    forall i | 0 <= i < |bs'|
      ensures bs'[i].meta.hash in chain' && chain'[bs'[i].meta.hash] == HashAt(cp, bs', i)
    {
      if i < |bs| {
        assert bs'[i] == bs[i] && HashAt(cp, bs, i + 1) == bs[i].meta.hash;
        StepDown(chain, cp, bs, i + 1);
      }
    }
  }

  /** The state after `neominer_process_block` has put a block on top of the tip. */
  function Extended(digest: Bytes -> Hash, st: State, bd: BlockData): State
  {
    var b := NewBlock(digest, bd, st.height + 1);
    State(st.height + 1, bd.hash, st.chain[bd.hash := st.hash], st.lib + [bd.commits],
          st.db, st.batch + RemoveOps(Iterate(st.db), BlockKey(st.height + 1)) + StoreOps(b), st.cached + 1)
  }

  /** Everything `Agree` asks except that the batch is below capacity. */
  ghost predicate AgreeUpToFlush(cp: Checkpoint, digest: Bytes -> Hash, st: State, bs: seq<Block>, k: nat)
  {
    && Linked(cp, bs) && Authentic(digest, bs) && k <= |bs|
    && MemoryHolds(cp, st, bs)
    && Storable(bs) && Storable(bs[..k])
    && st.db == StoreOf(bs[..k]) && st.batch == PendingOps(st.db, bs[k..]) && Apply(st.db, st.batch) == StoreOf(bs)
    && st.cached == |bs| - k
  }

  lemma AuthenticAppend(digest: Bytes -> Hash, bs: seq<Block>, b: Block)
    requires Authentic(digest, bs) && b.meta.fingerprint == Fingerprint(digest, b.commits)
    ensures Authentic(digest, bs + [b])
  {
  }

  lemma AuthenticPrefix(digest: Bytes -> Hash, bs: seq<Block>, n: nat)
    requires Authentic(digest, bs) && n <= |bs|
    ensures Authentic(digest, bs[..n])
  {
  }

  /** Extending the tip by a fresh, non-zero hash keeps the three views in agreement. */
  lemma AgreeExtend(cp: Checkpoint, digest: Bytes -> Hash, st: State, bs: seq<Block>, k: nat, bd: BlockData)
    requires Agree(cp, digest, st, bs, k)
    requires cp.height + |bs| + 1 < HEIGHT_LIMIT && |bd.commits| <= TWO_32
    requires bd.previous == st.hash && Fresh(cp, bs, bd.hash)
    ensures AgreeUpToFlush(cp, digest, Extended(digest, st, bd), bs + [NewBlock(digest, bd, st.height + 1)], k)
  {
    hide Linked, Storable, Apply, StoreOf, ChainHolds, StoreOps, RemoveOps, Authentic, Fresh, CommitLists, Fingerprint,
         PendingOps;
    var b := NewBlock(digest, bd, st.height + 1);
    var bs' := bs + [b];
    LinkedAppend(cp, bs, b);
    AuthenticAppend(digest, bs, b);
    assert bs'[..k] == bs[..k] && bs'[k..] == bs[k..] + [b];
    PendingOpsAppend(st.db, bs[k..], b);
    ExtendStore(st.db, st.batch, bs, k, b);
    ChainExtend(st.chain, cp, bs, b);
    HashAtAppend(cp, bs, b);
    CommitListsAppend(bs, b);
  }

  /** Writing the batch keeps the active chain and puts all of it on disk. */
  lemma AgreeFlush(cp: Checkpoint, digest: Bytes -> Hash, st: State, bs: seq<Block>, k: nat)
    requires AgreeUpToFlush(cp, digest, st, bs, k)
    ensures Agree(cp, digest, st.(db := Apply(st.db, st.batch), batch := [], cached := 0), bs, |bs|)
  {
    assert bs[..|bs|] == bs && bs[|bs|..] == [];
  }

  // ---------------------------------------------------------------- rewinding

  /** Number of blocks left in the store and in libcomb by a reorg to position `j`. */
  function Kept(j: nat): nat
  {
    if j == 0 then 1 else j
  }

  lemma HeightBound(cp: Checkpoint, bs: seq<Block>)
    requires Linked(cp, bs)
    ensures cp.height + |bs| < HEIGHT_LIMIT
  {
  }

  /** Cutting the store above height `cp.height + n` leaves the first `n` blocks. */
  lemma CutStore(cp: Checkpoint, bs: seq<Block>, n: nat)
    requires Linked(cp, bs) && n <= |bs|
    ensures Storable(bs) && Storable(bs[..n])
    ensures CutFrom(StoreOf(bs), cp.height + n + 1) == StoreOf(bs[..n])
  {
    hide Linked, Storable, StoreOf, CutFrom, HeightsBelow, HeightsFrom;
    LinkedHeights(cp, bs, n);
    HeightBound(cp, bs);
    LinkedPrefix(cp, bs, n);
    StoreOfCut(bs, n, cp.height + n + 1);
  }

  lemma ChainCut(chain: map<Hash, Hash>, cp: Checkpoint, bs: seq<Block>, n: nat)
    requires ChainHolds(chain, cp, bs) && n <= |bs|
    ensures ChainHolds(chain, cp, bs[..n])
  {
    assert forall i | 0 <= i < n :: bs[..n][i] == bs[i] && HashAt(cp, bs[..n], i) == HashAt(cp, bs, i);
  }

  /** The state after `combcore_reorg` has gone back to position `j`, keeping `n` stored and loaded blocks. */
  ghost function Rewound(cp: Checkpoint, st: State, bs: seq<Block>, j: nat, n: nat): State
    requires j <= |bs| && n <= |st.lib|
  {
    State(cp.height + n, HashAt(cp, bs, j), st.chain, st.lib[..n], CutFrom(st.db, cp.height + n + 1), [], 0)
  }

  /** A reorg to a stored block `j > 0` leaves the three views agreeing on the chain cut there. */
  lemma AgreeRewind(cp: Checkpoint, digest: Bytes -> Hash, st: State, bs: seq<Block>, j: nat)
    requires Agree(cp, digest, st, bs, |bs|) && j <= |bs|
    ensures Agree(cp, digest, Rewound(cp, st, bs, j, j), bs[..j], j)
  {
    hide Linked, Storable, Apply, StoreOf, ChainHolds, CutFrom, Authentic;
    assert bs[..|bs|] == bs && bs[..j][..j] == bs[..j] && bs[..j][j..] == [];
    LinkedPrefix(cp, bs, j);
    AuthenticPrefix(digest, bs, j);
    CutStore(cp, bs, j);
    ChainCut(st.chain, cp, bs, j);
    CommitListsPrefix(bs, j);
    ApplyNothing(StoreOf(bs[..j]));
  }

  lemma CommitListsAppend(bs: seq<Block>, b: Block)
    ensures CommitLists(bs + [b]) == CommitLists(bs) + [b.commits]
  {
  }

  lemma CommitListsPrefix(bs: seq<Block>, j: nat)
    requires j <= |bs|
    ensures CommitLists(bs[..j]) == CommitLists(bs)[..j]
  {
  }

  lemma ApplyNothing(db: Store)
    ensures Apply(db, []) == db
  {
  }

  // ---------------------------------------------------------------- when agreement is lost

  /** Two blocks loaded but a parent map that reaches the checkpoint in one step. */
  lemma NoAgreementAfterCheckpointReorg(cp: Checkpoint, digest: Bytes -> Hash, st: State)
    requires st.height == cp.height + 2
    requires st.hash in st.chain && st.chain[st.hash] == cp.hash
    ensures !InAgreement(cp, digest, st)
  {
    hide DistinctHashes, Chained, ChainHolds, Authentic, Storable, StoreHolds, StoreOf;
    if bs: seq<Block>, k: nat :| Agree(cp, digest, st, bs, k) {
      WalkVisits(st.chain, cp, bs, 2, 1);
      assert st.hash == HashAt(cp, bs, 2);
      SamePosition(cp, bs, 0, 1);
      assert false;
    }
  }

  lemma SamePosition(cp: Checkpoint, bs: seq<Block>, i: nat, j: nat)
    requires DistinctHashes(cp, bs) && i <= |bs| && j <= |bs|
    ensures HashAt(cp, bs, i) == HashAt(cp, bs, j) ==> i == j
  {
  }

  /** The batch holds one block more than libcomb. */
  lemma NoAgreementOnCount(cp: Checkpoint, digest: Bytes -> Hash, st: State, bs: seq<Block>)
    requires Storable(bs) && Apply(st.db, st.batch) == StoreOf(bs)
    requires |bs| != |st.lib|
    ensures !InAgreement(cp, digest, st)
  {
    if bs': seq<Block>, k: nat :| Agree(cp, digest, st, bs', k) {
      StoreOfInjective(bs, bs');
      assert false;
    }
  }

  /** The parent map has a cycle through the tip. */
  lemma NoAgreementOnCycle(cp: Checkpoint, digest: Bytes -> Hash, st: State, n: nat)
    requires 0 < n && cp.height + n <= st.height
    requires Walk(st.chain, st.hash, n) == st.hash
    ensures !InAgreement(cp, digest, st)
  {
    hide DistinctHashes, Chained, ChainHolds, Authentic, Storable, StoreHolds, StoreOf;
    if bs: seq<Block>, k: nat :| Agree(cp, digest, st, bs, k) {
      WalkVisits(st.chain, cp, bs, |bs|, n);
      SamePosition(cp, bs, |bs| - n, |bs|);
      assert false;
    }
  }

  /** Changing the parent of `x` does not disturb a walk that does not pass through `x`. */
  lemma {:induction false} WalkUnaffected(chain: map<Hash, Hash>, cp: Checkpoint, bs: seq<Block>,
                                          x: Hash, p: Hash, from: nat, to: nat)
    requires ChainHolds(chain, cp, bs) && to <= from <= |bs|
    requires forall i | to < i <= from :: HashAt(cp, bs, i) != x
    ensures Walk(chain[x := p], HashAt(cp, bs, from), from - to) == HashAt(cp, bs, to)
    decreases from
  {
    hide ChainHolds;
    if to < from {
      StepDown(chain, cp, bs, from);
      var h, chain' := HashAt(cp, bs, from), chain[x := p];
      assert h != x && h in chain' && chain'[h] == HashAt(cp, bs, from - 1);
      assert Walk(chain', h, from - to) == Walk(chain', HashAt(cp, bs, from - 1), from - 1 - to);
      WalkUnaffected(chain, cp, bs, x, p, from - 1, to);
    }
  }

  lemma StepDown(chain: map<Hash, Hash>, cp: Checkpoint, bs: seq<Block>, i: nat)
    requires ChainHolds(chain, cp, bs) && 0 < i <= |bs|
    ensures HashAt(cp, bs, i) in chain && chain[HashAt(cp, bs, i)] == HashAt(cp, bs, i - 1)
  {
    var parent := HashAt(cp, bs, i - 1);
    assert bs[i - 1].meta.hash in chain && chain[bs[i - 1].meta.hash] == parent;
  }

  /** Re-adding a hash of the active chain (or the checkpoint) on top of the tip closes a cycle. */
  lemma NoAgreementAfterRepeat(cp: Checkpoint, digest: Bytes -> Hash, chain: map<Hash, Hash>, bs: seq<Block>, i: nat,
                               st: State)
    requires DistinctHashes(cp, bs) && ChainHolds(chain, cp, bs) && i <= |bs|
    requires st.hash == HashAt(cp, bs, i) && st.height == cp.height + |bs| + 1
    requires st.chain == chain[st.hash := Tip(cp, bs)]
    ensures !InAgreement(cp, digest, st)
  {
    hide DistinctHashes, ChainHolds, InAgreement;
    forall m | i < m <= |bs| ensures HashAt(cp, bs, m) != st.hash {
      SamePosition(cp, bs, m, i);
    }
    var tip, n := Tip(cp, bs), |bs| - i + 1;
    WalkUnaffected(chain, cp, bs, st.hash, tip, |bs|, i);
    assert st.hash in st.chain && st.chain[st.hash] == tip;
    assert Walk(st.chain, st.hash, n) == Walk(st.chain, tip, n - 1);
    NoAgreementOnCycle(cp, digest, st, n);
  }
}
