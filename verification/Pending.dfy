/**
 What a pending batch does to a store it was built against, whatever that store holds: removal
 looks only at the store, never at the batch, and yet each written height ends with exactly its
 new block.
 */
module Pending {
  import opened Bytes
  import opened KeyValue
  import opened Layout
  import opened Scans

  /** The key belongs to a height of one of the blocks. */
  ghost predicate Rewritten(k: Bytes, bs: seq<Block>)
  {
    exists i :: 0 <= i < |bs| && HasPrefix(k, BlockKey(bs[i].meta.height))
  }

  ghost function Untouched(db: Store, bs: seq<Block>): Store
  {
    map k | k in db && !Rewritten(k, bs) :: db[k]
  }

  lemma RewrittenSnoc(k: Bytes, bs: seq<Block>)
    requires bs != []
    ensures Rewritten(k, bs) <==> Rewritten(k, bs[..|bs| - 1]) || HasPrefix(k, BlockKey(bs[|bs| - 1].meta.height))
  {
    hide HasPrefix, BlockKey;
    var n := |bs| - 1;
    if i :| 0 <= i < |bs| && HasPrefix(k, BlockKey(bs[i].meta.height)) {
      assert i == n || bs[..n][i] == bs[i];
    }
    if i :| 0 <= i < n && HasPrefix(k, BlockKey(bs[..n][i].meta.height)) {
      assert bs[i] == bs[..n][i];
    }
  }

  /** A key that extends `p` does not sort below it. */
  lemma PrefixNotBelow(k: Bytes, p: Bytes)
    requires HasPrefix(k, p)
    ensures !Less(k, p)
  {
    assert k == p + k[|p|..] && p + [] == p;
    LessConcat(p, p, k[|p|..], []);
    LessIrreflexive(p);
  }

  lemma BelowNoPrefix(es: seq<Entry>, p: Bytes)
    requires Sorted(es) && Below(es, p)
    ensures forall k | k in ToStore(es) :: !HasPrefix(k, p)
  {
    forall k | k in ToStore(es) && HasPrefix(k, p) ensures false {
      PrefixNotBelow(k, p);
    }
  }

  lemma RemoveUnion(u: Store, m: Store, ks: set<Bytes>)
    requires m.Keys !! ks
    ensures (u + m) - ks == (u - ks) + m
  {
  }

  lemma UnionAssoc(u: Store, m: Store, n: Store)
    ensures (u + m) + n == u + (m + n)
  {
  }

  /** The keys one removal names. */
  lemma RemovedKeys(db: Store, p: Bytes)
    ensures AllDeletes(RemoveOps(Iterate(db), p))
    ensures KeysOf(RemoveOps(Iterate(db), p)) == set k | k in db && HasPrefix(k, p)
  {
    var ops := RemoveOps(Iterate(db), p);
    RemoveOpsKeys(Iterate(db), p, []);
    hide RemoveOps, Iterate, HasPrefix;
    forall k ensures k in KeysOf(ops) <==> HasPrefix(k, p) && k in db {
      RemoveOpsKeys(Iterate(db), p, k);
      IterateComplete(db, k);
    }
  }

  lemma UntouchedSnoc(db: Store, bs: seq<Block>, b: Block)
    ensures Untouched(db, bs + [b]) == Untouched(db, bs) - set k | k in db && HasPrefix(k, BlockKey(b.meta.height))
  {
    hide HasPrefix, BlockKey, Rewritten;
    assert (bs + [b])[..|bs|] == bs;
    forall k ensures Rewritten(k, bs + [b]) <==> Rewritten(k, bs) || HasPrefix(k, BlockKey(b.meta.height)) {
      RewrittenSnoc(k, bs + [b]);
    }
  }

  /** Removing one more height. */
  lemma OneMore(db: Store, at: Store, bs: seq<Block>, b: Block, m: Store)
    requires at.Keys <= db.Keys
    requires forall k | k in m :: !HasPrefix(k, BlockKey(b.meta.height))
    ensures Apply(Untouched(at, bs) + m, RemoveOps(Iterate(db), BlockKey(b.meta.height))) == Untouched(at, bs + [b]) + m
  {
    hide Apply, RemoveOps, Iterate, BlockKey, HasPrefix, Rewritten;
    var p := BlockKey(b.meta.height);
    var ks := set k | k in db && HasPrefix(k, p);
    RemovedKeys(db, p);
    ApplyDeletes(Untouched(at, bs) + m, RemoveOps(Iterate(db), p));
    UntouchedSnoc(at, bs, b);
    assert Untouched(at, bs) - ks == Untouched(at, bs) - set k | k in at && HasPrefix(k, p);
    hide Untouched;
    RemoveUnion(Untouched(at, bs), m, ks);
  }

  /**
   Against the store it was built for, or what is left of that store, the batch of blocks with
   increasing heights leaves every key outside those heights alone and gives each of those heights
   exactly the entries of its block.
   */
  lemma {:induction false} PendingAppliedTo(db: Store, at: Store, bs: seq<Block>)
    requires Storable(bs) && at.Keys <= db.Keys
    ensures Sorted(BlocksEntries(bs))
    ensures Apply(at, PendingOps(db, bs)) == Untouched(at, bs) + ToStore(BlocksEntries(bs))
  {
    BlocksEntriesSorted(bs);
    if bs == [] {
      assert Untouched(at, bs) == at;
    } else {
      var n := |bs| - 1;
      var front, b := bs[..n], bs[n];
      assert front + [b] == bs;
      PendingAppliedTo(db, at, front);
      BlocksEntriesBounds(front, b.meta.height);
      hide Storable, Untouched, Apply, Sorted, BlockKey, StoreOps, RemoveOps, BlockEntries;
      BelowNoPrefix(BlocksEntries(front), BlockKey(b.meta.height));
      BlocksEntriesAppend(front, b);
      PendingOpsAppend(db, front, b);
      PendingStep(db, at, front, b);
    }
  }

  lemma PendingStep(db: Store, at: Store, front: seq<Block>, b: Block)
    requires at.Keys <= db.Keys
    requires Storable(front + [b]) && Sorted(BlocksEntries(front)) && Sorted(BlocksEntries(front + [b]))
    requires BlocksEntries(front + [b]) == BlocksEntries(front) + BlockEntries(b)
    requires forall k | k in ToStore(BlocksEntries(front)) :: !HasPrefix(k, BlockKey(b.meta.height))
    requires Apply(at, PendingOps(db, front)) == Untouched(at, front) + ToStore(BlocksEntries(front))
    ensures Apply(at, PendingOps(db, front) + RemoveOps(Iterate(db), BlockKey(b.meta.height)) + StoreOps(b))
         == Untouched(at, front + [b]) + ToStore(BlocksEntries(front + [b]))
  {
    StorableParts(front, b);
    hide Storable, Untouched, Apply, Sorted, BlockKey, HasPrefix, StoreOps, RemoveOps, BlockEntries, BlocksEntries,
         PendingOps, ToStore, Iterate;
    var m := ToStore(BlocksEntries(front));
    var r := RemoveOps(Iterate(db), BlockKey(b.meta.height));
    OneMore(db, at, front, b, m);
    ApplyConcat(at, PendingOps(db, front), r);
    ApplyConcat(at, PendingOps(db, front) + r, StoreOps(b));
    ApplyStoreOps(Untouched(at, front + [b]) + m, b);
    ToStoreConcat(BlocksEntries(front), BlockEntries(b));
    UnionAssoc(Untouched(at, front + [b]), m, ToStore(BlockEntries(b)));
  }

  /** Against any store, whatever it holds. */
  lemma PendingApplied(db: Store, bs: seq<Block>)
    requires Storable(bs)
    ensures Sorted(BlocksEntries(bs))
    ensures Apply(db, PendingOps(db, bs)) == Untouched(db, bs) + ToStore(BlocksEntries(bs))
  {
    PendingAppliedTo(db, db, bs);
  }

  /** After the write, the keys of a written height are those of its block and no older one's. */
  lemma WrittenHeight(db: Store, bs: seq<Block>, i: nat, k: Bytes)
    requires Storable(bs) && i < |bs| && HasPrefix(k, BlockKey(bs[i].meta.height))
    ensures Sorted(BlocksEntries(bs))
    ensures k in Apply(db, PendingOps(db, bs)) <==> k in ToStore(BlocksEntries(bs))
    ensures k in Apply(db, PendingOps(db, bs)) ==> Apply(db, PendingOps(db, bs))[k] == ToStore(BlocksEntries(bs))[k]
  {
    PendingApplied(db, bs);
    assert Rewritten(k, bs);
  }

  // ---------------------------------------------------------------- on a store that holds blocks

  ghost predicate HasHeight(bs: seq<Block>, h: nat)
  {
    exists i :: 0 <= i < |bs| && bs[i].meta.height == h
  }

  /** Every key of a block's entries starts with the block's key. */
  lemma {:induction false} EntryHeight(bs: seq<Block>, i: nat) returns (j: nat)
    requires i < |BlocksEntries(bs)|
    ensures j < |bs| && HasPrefix(BlocksEntries(bs)[i].key, BlockKey(bs[j].meta.height))
  {
    var n := |bs| - 1;
    var front := BlocksEntries(bs[..n]);
    if i < |front| {
      j := EntryHeight(bs[..n], i);
    } else {
      j := n;
      assert BlocksEntries(bs)[i] == BlockEntries(bs[n])[i - |front|];
    }
  }

  lemma PrefixHeight(k: Bytes, h: nat, g: nat)
    requires HasPrefix(k, BlockKey(h)) && HasPrefix(k, BlockKey(g)) && h < TWO_64 && g < TWO_64
    ensures h == g
  {
    BlockKeyOrder(h, g);
  }

  /** Keys of blocks are rewritten together with their height. */
  lemma EntryRewritten(bs: seq<Block>, c: seq<Block>, i: nat)
    requires Storable(bs) && Storable(c) && i < |BlocksEntries(bs)|
    ensures (forall j | 0 <= j < |bs| :: HasHeight(c, bs[j].meta.height)) ==> Rewritten(BlocksEntries(bs)[i].key, c)
    ensures (forall j | 0 <= j < |bs| :: !HasHeight(c, bs[j].meta.height)) ==> !Rewritten(BlocksEntries(bs)[i].key, c)
  {
    hide HasPrefix, BlockKey, BlocksEntries;
    var j := EntryHeight(bs, i);
    var k := BlocksEntries(bs)[i].key;
    if m :| 0 <= m < |c| && c[m].meta.height == bs[j].meta.height {
      assert HasPrefix(k, BlockKey(c[m].meta.height));
    }
    if m :| 0 <= m < |c| && HasPrefix(k, BlockKey(c[m].meta.height)) {
      PrefixHeight(k, c[m].meta.height, bs[j].meta.height);
    }
  }

  lemma VersionNotRewritten(c: seq<Block>)
    ensures !Rewritten(VERSION_KEY, c)
  {
  }

  /** Dropping the rewritten keys of a sorted list drops the stretch that holds them. */
  lemma UntouchedEntries(x: seq<Entry>, y: seq<Entry>, z: seq<Entry>, c: seq<Block>)
    requires Sorted(x) && Sorted(y) && Sorted(z) && Sorted(x + y) && Sorted(x + y + z) && Sorted(x + z)
    requires forall i | 0 <= i < |x| :: !Rewritten(x[i].key, c)
    requires forall i | 0 <= i < |y| :: Rewritten(y[i].key, c)
    requires forall i | 0 <= i < |z| :: !Rewritten(z[i].key, c)
    ensures Untouched(ToStore(x + y + z), c) == ToStore(x + z)
  {
    hide Rewritten, Sorted;
    ToStoreConcat(x, y);
    ToStoreConcat(x + y, z);
    ToStoreConcat(x, z);
    assert forall k | k in ToStore(x) :: !Rewritten(k, c);
    assert forall k | k in ToStore(y) :: Rewritten(k, c);
    assert forall k | k in ToStore(z) :: !Rewritten(k, c);
    hide ToStore;
    UntouchedUnion(ToStore(x), ToStore(y), ToStore(z), c);
  }

  lemma UntouchedUnion(u: Store, m: Store, n: Store, c: seq<Block>)
    requires forall k | k in u :: !Rewritten(k, c)
    requires forall k | k in m :: Rewritten(k, c)
    requires forall k | k in n :: !Rewritten(k, c)
    ensures Untouched(u + m + n, c) == u + n
  {
    hide Rewritten;
  }

  lemma DisjointKeys(a: seq<Entry>, b: seq<Entry>)
    requires Sorted(a) && Sorted(b) && Sorted(a + b)
    ensures forall k | k in ToStore(a) :: k !in ToStore(b)
  {
    forall k | k in ToStore(a) && k in ToStore(b) ensures false {
      var i :| 0 <= i < |a| && a[i].key == k;
      var j :| 0 <= j < |b| && b[j].key == k;
      assert (a + b)[i] == a[i] && (a + b)[|a| + j] == b[j];
      LessIrreflexive(k);
    }
  }

  /** Entries that fit between two stretches may be added last. */
  lemma InsertEntries(x: seq<Entry>, w: seq<Entry>, z: seq<Entry>)
    requires Sorted(x) && Sorted(w) && Sorted(z) && Sorted(x + w) && Sorted(x + z) && Sorted(x + w + z)
    ensures ToStore(x + z) + ToStore(w) == ToStore(x + w + z)
  {
    hide Sorted;
    ToStoreConcat(x, z);
    ToStoreConcat(x, w);
    ToStoreConcat(x + w, z);
    DisjointKeys(x + w, z);
    hide ToStore;
    SwapUnion(ToStore(x), ToStore(w), ToStore(z));
  }

  lemma SwapUnion(u: Store, m: Store, n: Store)
    requires forall k | k in m :: k !in n
    ensures (u + n) + m == (u + m) + n
  {
  }

  lemma SortedParts(a: seq<Entry>, b: seq<Entry>)
    requires Sorted(a + b)
    ensures Sorted(a) && Sorted(b)
  {
    assert forall i | 0 <= i < |a| :: a[i] == (a + b)[i];
    assert forall i | 0 <= i < |b| :: b[i] == (a + b)[|a| + i];
  }

  lemma EntriesOfThree(a: seq<Block>, b: seq<Block>, c: seq<Block>)
    ensures AllEntries(a + b + c) == AllEntries(a) + BlocksEntries(b) + BlocksEntries(c)
  {
    var bs := a + b + c;
    BlocksEntriesSplit(bs, |a| + |b|);
    assert bs[..|a| + |b|] == a + b && bs[|a| + |b|..] == c;
    BlocksEntriesSplit(a + b, |a|);
    assert (a + b)[..|a|] == a && (a + b)[|a|..] == b;
    ConcatAssoc([VERSION_ENTRY], BlocksEntries(a), BlocksEntries(b));
    ConcatAssoc([VERSION_ENTRY], BlocksEntries(a) + BlocksEntries(b), BlocksEntries(c));
  }

  /** All heights of `a` lie below all heights of `b`. */
  ghost predicate Before(a: seq<Block>, b: seq<Block>)
  {
    forall i, j | 0 <= i < |a| && 0 <= j < |b| :: a[i].meta.height < b[j].meta.height
  }

  lemma StorableConcat(a: seq<Block>, b: seq<Block>)
    ensures Storable(a + b) <==> Storable(a) && Storable(b) && Before(a, b)
  {
    var bs := a + b;
    assert forall i | 0 <= i < |a| :: a[i] == bs[i];
    assert forall j | 0 <= j < |b| :: b[j] == bs[|a| + j];
  }

  lemma BeforePart(a: seq<Block>, b: seq<Block>, c: seq<Block>)
    requires Before(a + b, c)
    ensures Before(a, c) && Before(b, c)
  {
    assert forall i | 0 <= i < |a| :: a[i] == (a + b)[i];
    assert forall i | 0 <= i < |b| :: b[i] == (a + b)[|a| + i];
  }

  lemma StorableParts3(a: seq<Block>, b: seq<Block>, c: seq<Block>)
    requires Storable(a + b + c)
    ensures Storable(a) && Storable(b) && Storable(c) && Storable(a + c) && Before(a, b) && Before(b, c)
  {
    hide Storable, Before;
    StorableConcat(a + b, c);
    StorableConcat(a, b);
    BeforePart(a, b, c);
    StorableConcat(a, c);
  }

  /**
   The batch of the blocks `c`, built for a store `db` and applied to the blocks `a`, `over`, `after`
   left of it, puts `c` in the place of the blocks it overwrites.
   */
  lemma PendingOnBlocks(db: Store, a: seq<Block>, over: seq<Block>, after: seq<Block>, c: seq<Block>)
    requires Storable(a + over + after) && Storable(a + c + after)
    requires forall i | 0 <= i < |over| :: HasHeight(c, over[i].meta.height)
    requires StoreOf(a + over + after).Keys <= db.Keys
    ensures Apply(StoreOf(a + over + after), PendingOps(db, c)) == StoreOf(a + c + after)
  {
    StorableParts3(a, over, after);
    StorableParts3(a, c, after);
    forall i | 0 <= i < |a| ensures !HasHeight(c, a[i].meta.height) {}
    forall i | 0 <= i < |after| ensures !HasHeight(c, after[i].meta.height) {}
    EntriesOfThree(a, over, after);
    EntriesOfThree(a, c, after);
    AllEntriesSorted(a + over + after);
    AllEntriesSorted(a + c + after);
    hide Storable, HasHeight, Apply, PendingOps;
    PendingAppliedTo(db, StoreOf(a + over + after), c);
    var x, y, z, w := AllEntries(a), BlocksEntries(over), BlocksEntries(after), BlocksEntries(c);
    StretchesRewritten(a, over, after, c);
    StretchesSorted(a, after, c);
    StretchesSorted(a, after, over);
    hide AllEntries, BlocksEntries, Sorted, ToStore, Rewritten, Untouched;
    UntouchedEntries(x, y, z, c);
    InsertEntries(x, w, z);
  }

  lemma StretchesRewritten(a: seq<Block>, over: seq<Block>, after: seq<Block>, c: seq<Block>)
    requires Storable(a) && Storable(over) && Storable(after) && Storable(c)
    requires forall i | 0 <= i < |a| :: !HasHeight(c, a[i].meta.height)
    requires forall i | 0 <= i < |over| :: HasHeight(c, over[i].meta.height)
    requires forall i | 0 <= i < |after| :: !HasHeight(c, after[i].meta.height)
    ensures forall i | 0 <= i < |AllEntries(a)| :: !Rewritten(AllEntries(a)[i].key, c)
    ensures forall i | 0 <= i < |BlocksEntries(over)| :: Rewritten(BlocksEntries(over)[i].key, c)
    ensures forall i | 0 <= i < |BlocksEntries(after)| :: !Rewritten(BlocksEntries(after)[i].key, c)
  {
    hide Storable, HasHeight, Rewritten, BlocksEntries;
    VersionNotRewritten(c);
    forall i | 0 <= i < |AllEntries(a)| ensures !Rewritten(AllEntries(a)[i].key, c) {
      if i > 0 { EntryRewritten(a, c, i - 1); }
    }
    forall i | 0 <= i < |BlocksEntries(over)| ensures Rewritten(BlocksEntries(over)[i].key, c) {
      EntryRewritten(over, c, i);
    }
    forall i | 0 <= i < |BlocksEntries(after)| ensures !Rewritten(BlocksEntries(after)[i].key, c) {
      EntryRewritten(after, c, i);
    }
  }

  lemma StretchesSorted(a: seq<Block>, after: seq<Block>, c: seq<Block>)
    requires Storable(a + c + after)
    ensures var x, w, z := AllEntries(a), BlocksEntries(c), BlocksEntries(after);
            Sorted(x) && Sorted(w) && Sorted(z) && Sorted(x + w) && Sorted(x + z) && Sorted(x + w + z)
  {
    StorableParts3(a, c, after);
    AllEntriesSorted(a + c + after);
    AllEntriesSorted(a + after);
    EntriesOfThree(a, c, after);
    EntriesOfThree(a, [], after);
    assert a + [] == a && AllEntries(a) + BlocksEntries([]) == AllEntries(a);
    hide Storable, AllEntries, BlocksEntries, Sorted;
    SortedParts(AllEntries(a) + BlocksEntries(c), BlocksEntries(after));
    SortedParts(AllEntries(a), BlocksEntries(c));
  }
}
