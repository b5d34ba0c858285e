/**
 LevelDB as the program sees it: a finite map from byte strings to byte strings,
 iterated in lexicographic key order and changed only by atomic, ordered batches.
 */
module KeyValue {
  import opened Bytes

  type Store = map<Bytes, Bytes>

  datatype Op = Put(key: Bytes, value: Bytes) | Delete(key: Bytes)

  datatype Entry = Entry(key: Bytes, value: Bytes)

  // ---------------------------------------------------------------- batches

  function ApplyOne(db: Store, op: Op): Store
  {
    match op
    case Put(k, v) => db[k := v]
    case Delete(k) => db - {k}
  }

  /** The effect of writing a batch: its operations in the order they were added. */
  function Apply(db: Store, ops: seq<Op>): Store
  {
    if ops == [] then db else ApplyOne(Apply(db, ops[..|ops| - 1]), ops[|ops| - 1])
  }

  lemma {:induction false} ApplyConcat(db: Store, a: seq<Op>, b: seq<Op>)
    ensures Apply(db, a + b) == Apply(Apply(db, a), b)
  {
    if b == [] {
      assert a + b == a;
    } else {
      var n := |b| - 1;
      assert (a + b)[..|a + b| - 1] == a + b[..n];
      ApplyConcat(db, a, b[..n]);
    }
  }

  ghost predicate AllDeletes(ops: seq<Op>)
  {
    forall i | 0 <= i < |ops| :: ops[i].Delete?
  }

  ghost predicate AllPuts(ops: seq<Op>)
  {
    forall i | 0 <= i < |ops| :: ops[i].Put?
  }

  ghost function KeysOf(ops: seq<Op>): set<Bytes>
  {
    set i | 0 <= i < |ops| :: ops[i].key
  }

  lemma KeysOfSnoc(ops: seq<Op>)
    requires ops != []
    ensures KeysOf(ops) == KeysOf(ops[..|ops| - 1]) + {ops[|ops| - 1].key}
  {
    var n := |ops| - 1;
    forall k | k in KeysOf(ops) ensures k in KeysOf(ops[..n]) + {ops[n].key} {
      var i :| 0 <= i < |ops| && ops[i].key == k;
      assert i < n ==> ops[..n][i].key == k;
    }
    forall k | k in KeysOf(ops[..n]) + {ops[n].key} ensures k in KeysOf(ops) {
      if k in KeysOf(ops[..n]) {
        var i :| 0 <= i < n && ops[..n][i].key == k;
        assert ops[i].key == k;
      }
    }
  }

  /** A batch of deletes removes exactly the keys it names. */
  lemma {:induction false} ApplyDeletes(db: Store, ops: seq<Op>)
    requires AllDeletes(ops)
    ensures Apply(db, ops) == db - KeysOf(ops)
  {
    if ops != [] {
      ApplyDeletes(db, ops[..|ops| - 1]);
      KeysOfSnoc(ops);
    }
  }

  /** A batch of puts touches no key it does not name. */
  lemma {:induction false} ApplyPutsFrame(db: Store, ops: seq<Op>)
    requires AllPuts(ops)
    ensures Apply(db, ops).Keys == db.Keys + KeysOf(ops)
    ensures forall k | k in db && k !in KeysOf(ops) :: Apply(db, ops)[k] == db[k]
  {
    if ops != [] {
      ApplyPutsFrame(db, ops[..|ops| - 1]);
      KeysOfSnoc(ops);
    }
  }

  ghost predicate DistinctKeys(ops: seq<Op>)
  {
    forall i, j | 0 <= i < j < |ops| :: ops[i].key != ops[j].key
  }

  /** Puts with distinct keys all survive. */
  lemma {:induction false} ApplyPutsValue(db: Store, ops: seq<Op>, i: nat)
    requires AllPuts(ops) && DistinctKeys(ops) && i < |ops|
    ensures ops[i].key in Apply(db, ops) && Apply(db, ops)[ops[i].key] == ops[i].value
  {
    var n := |ops| - 1;
    if i < n {
      ApplyPutsValue(db, ops[..n], i);
      assert ops[..n][i] == ops[i];
      assert ops[n].key != ops[i].key;
    }
  }

  // ---------------------------------------------------------------- key order

  ghost predicate SortedKeySeq(ks: seq<Bytes>)
  {
    forall i, j | 0 <= i < j < |ks| :: Less(ks[i], ks[j])
  }

  predicate NoneBelow(k: Bytes, s: set<Bytes>)
  {
    forall o | o in s :: o == k || Less(k, o)
  }

  lemma {:induction false} LeastExists(s: set<Bytes>)
    requires s != {}
    ensures exists k :: k in s && NoneBelow(k, s)
    decreases |s|
  {
    var x :| x in s;
    var rest := s - {x};
    if rest == {} {
      assert s == {x};
      assert NoneBelow(x, s);
    } else {
      LeastExists(rest);
      var y :| y in rest && NoneBelow(y, rest);
      LessTotal(x, y);
      if Less(x, y) {
        forall o | o in rest ensures Less(x, o) {
          if o != y { LessTransitive(x, y, o); }
        }
        assert NoneBelow(x, s);
      } else {
        assert NoneBelow(y, s);
      }
    }
  }

  lemma LeastUnique(s: set<Bytes>)
    ensures forall a, b | a in s && NoneBelow(a, s) && b in s && NoneBelow(b, s) :: a == b
  {
    forall a, b | a in s && NoneBelow(a, s) && b in s && NoneBelow(b, s) ensures a == b {
      if a != b {
        LessTransitive(a, b, a);
        LessIrreflexive(a);
      }
    }
  }

  lemma ConsSorted(k: Bytes, rest: seq<Bytes>, s: set<Bytes>)
    requires k in s && NoneBelow(k, s) && SortedKeySeq(rest)
    requires forall x :: x in rest <==> x in s - {k}
    ensures SortedKeySeq([k] + rest)
    ensures forall x :: x in [k] + rest <==> x in s
  {
    forall j | 0 <= j < |rest| ensures Less(k, rest[j]) {
      assert rest[j] in rest;
    }
  }

  /** The keys in the order an iterator visits them. */
  function SortedKeys(s: set<Bytes>): (ks: seq<Bytes>)
    ensures SortedKeySeq(ks)
    ensures forall k :: k in ks <==> k in s
    decreases |s|
  {
    if s == {} then [] else
      LeastExists(s);
      LeastUnique(s);
      var k :| k in s && NoneBelow(k, s);
      var rest := SortedKeys(s - {k});
      ConsSorted(k, rest, s);
      [k] + rest
  }

  /** The iterator's view of a store: all entries, smallest key first. */
  function Iterate(db: Store): (es: seq<Entry>)
    ensures |es| == |SortedKeys(db.Keys)|
    ensures forall i | 0 <= i < |es| :: es[i].key in db && es[i].value == db[es[i].key]
    ensures Sorted(es)
  {
    var ks := SortedKeys(db.Keys);
    seq(|ks|, i requires 0 <= i < |ks| => assert ks[i] in ks; Entry(ks[i], db[ks[i]]))
  }

  ghost predicate HasKey(es: seq<Entry>, k: Bytes)
  {
    exists i :: 0 <= i < |es| && es[i].key == k
  }

  /** The iterator misses no key. */
  lemma IterateComplete(db: Store, k: Bytes)
    ensures HasKey(Iterate(db), k) <==> k in db
  {
    if k in db {
      var ks := SortedKeys(db.Keys);
      assert k in ks;
      var i :| 0 <= i < |ks| && ks[i] == k;
      assert Iterate(db)[i].key == k;
    }
  }

  // ---------------------------------------------------------------- sorted entry lists

  ghost predicate Sorted(es: seq<Entry>)
  {
    forall i, j | 0 <= i < j < |es| :: Less(es[i].key, es[j].key)
  }

  lemma SortedDistinct(es: seq<Entry>)
    requires Sorted(es)
    ensures forall i, j | 0 <= i < |es| && 0 <= j < |es| && es[i].key == es[j].key :: i == j
  {
    forall i, j | 0 <= i < |es| && 0 <= j < |es| && es[i].key == es[j].key ensures i == j {
      LessIrreflexive(es[i].key);
    }
  }

  /** The store that holds exactly the given entries. */
  ghost function ToStore(es: seq<Entry>): (db: Store)
    requires Sorted(es)
    ensures forall i | 0 <= i < |es| :: es[i].key in db && db[es[i].key] == es[i].value
    ensures forall k :: k in db <==> exists i :: 0 <= i < |es| && es[i].key == k
  {
    SortedDistinct(es);
    map i | 0 <= i < |es| :: es[i].key := es[i].value
  }

  lemma SomeMember(es: seq<Entry>)
    requires es != []
    ensures exists e :: e in es
  {
    assert es[0] in es;
  }

  /** Two sorted lists with the same members are the same list. */
  lemma {:induction false} SortedUnique(a: seq<Entry>, b: seq<Entry>)
    requires Sorted(a) && Sorted(b)
    requires forall e :: e in a <==> e in b
    ensures a == b
    decreases |a|
  {
    if a == [] {
      if b != [] {
        SomeMember(b);
        assert false;
      }
    } else {
      assert a[0] in b && (b == [] || b[0] in a);
      var i :| 0 <= i < |b| && b[i] == a[0];
      var j :| 0 <= j < |a| && a[j] == b[0];
      if a[0] != b[0] {
        LessTransitive(a[0].key, b[0].key, a[0].key);
        LessIrreflexive(a[0].key);
      }
      SortedDistinct(a);
      SortedDistinct(b);
      forall e ensures e in a[1..] <==> e in b[1..] {
        if e in a[1..] {
          var p :| 0 <= p < |a[1..]| && a[1..][p] == e;
          assert a[p + 1] == e && e in b;
          var q :| 0 <= q < |b| && b[q] == e;
          assert q != 0;
          assert b[1..][q - 1] == e;
        }
        if e in b[1..] {
          var q :| 0 <= q < |b[1..]| && b[1..][q] == e;
          assert b[q + 1] == e && e in a;
          var p :| 0 <= p < |a| && a[p] == e;
          assert p != 0;
          assert a[1..][p - 1] == e;
        }
      }
      SortedUnique(a[1..], b[1..]);
      assert a == [a[0]] + a[1..] && b == [b[0]] + b[1..];
    }
  }

  lemma IteratedMembers(es: seq<Entry>, e: Entry)
    requires Sorted(es)
    ensures e in Iterate(ToStore(es)) <==> e in es
  {
    hide Sorted, Iterate, ToStore;
    var db := ToStore(es);
    var it := Iterate(db);
    if e in it {
      var i :| 0 <= i < |it| && it[i] == e;
      var j :| 0 <= j < |es| && es[j].key == e.key;
      assert es[j] == e;
    }
    if e in es {
      var j :| 0 <= j < |es| && es[j] == e;
      IterateComplete(db, e.key);
      var i :| 0 <= i < |it| && it[i].key == e.key;
      assert it[i] == e;
    }
  }

  /** Iterating the store of a sorted list gives the list back. */
  lemma IterateToStore(es: seq<Entry>)
    requires Sorted(es)
    ensures Iterate(ToStore(es)) == es
  {
    hide Sorted, Iterate, ToStore;
    forall e ensures e in Iterate(ToStore(es)) <==> e in es {
      IteratedMembers(es, e);
    }
    SortedUnique(Iterate(ToStore(es)), es);
  }

  /** Every key of `es` lies strictly below `p`. */
  ghost predicate Below(es: seq<Entry>, p: Bytes)
  {
    forall i | 0 <= i < |es| :: Less(es[i].key, p)
  }

  /** No key of `es` lies strictly below `p`. */
  ghost predicate AtOrAbove(es: seq<Entry>, p: Bytes)
  {
    forall i | 0 <= i < |es| :: !Less(es[i].key, p)
  }

  lemma SortedConcat(a: seq<Entry>, b: seq<Entry>, p: Bytes)
    requires Sorted(a) && Sorted(b) && Below(a, p) && AtOrAbove(b, p)
    ensures Sorted(a + b)
  {
    forall i, j | 0 <= i < j < |a + b| ensures Less((a + b)[i].key, (a + b)[j].key) {
      if i < |a| && |a| <= j {
        var y := b[j - |a|].key;
        LessTotal(p, y);
        if p != y { LessTransitive(a[i].key, p, y); }
      }
    }
  }

  /** Deleting every key at or above `p` cuts a sorted list where it crosses `p`. */
  lemma ToStoreCut(a: seq<Entry>, b: seq<Entry>, p: Bytes, db: Store)
    requires Sorted(a + b) && Sorted(a) && Below(a, p) && AtOrAbove(b, p)
    requires db.Keys == (set k | k in ToStore(a + b) && Less(k, p))
    requires forall k | k in db :: db[k] == ToStore(a + b)[k]
    ensures db == ToStore(a)
  {
    forall j | |a| <= j < |a + b| ensures !Less((a + b)[j].key, p) {
      assert (a + b)[j] == b[j - |a|];
    }
    forall k ensures k in db <==> k in ToStore(a) {
      if k in db {
        var i :| 0 <= i < |a + b| && (a + b)[i].key == k;
        assert a[i].key == k;
      }
      if k in ToStore(a) {
        var i :| 0 <= i < |a| && a[i].key == k;
        assert (a + b)[i].key == k;
      }
    }
    forall k | k in db ensures db[k] == ToStore(a)[k] {
      var i :| 0 <= i < |a| && a[i].key == k;
      assert (a + b)[i] == a[i];
    }
  }

  lemma ToStoreConcatKeys(a: seq<Entry>, b: seq<Entry>)
    requires Sorted(a) && Sorted(b) && Sorted(a + b)
    ensures ToStore(a + b).Keys == ToStore(a).Keys + ToStore(b).Keys
  {
    forall k | k in ToStore(a + b) ensures k in ToStore(a) || k in ToStore(b) {
      var i :| 0 <= i < |a + b| && (a + b)[i].key == k;
      assert if i < |a| then a[i].key == k else b[i - |a|].key == k;
    }
    forall k | k in ToStore(a) ensures k in ToStore(a + b) {
      var i :| 0 <= i < |a| && a[i].key == k;
      assert (a + b)[i].key == k;
    }
    forall k | k in ToStore(b) ensures k in ToStore(a + b) {
      var i :| 0 <= i < |b| && b[i].key == k;
      assert (a + b)[|a| + i].key == k;
    }
  }

  /** Adding the entries of `b` to the store of `a` gives the store of both. */
  lemma ToStoreConcat(a: seq<Entry>, b: seq<Entry>)
    requires Sorted(a) && Sorted(b) && Sorted(a + b)
    ensures ToStore(a + b) == ToStore(a) + ToStore(b)
  {
    ToStoreConcatKeys(a, b);
    var m, n := ToStore(a + b), ToStore(a) + ToStore(b);
    forall k | k in m ensures m[k] == n[k] {
      if k in ToStore(b) {
        var i :| 0 <= i < |b| && b[i].key == k;
        assert (a + b)[|a| + i] == b[i];
      } else {
        var i :| 0 <= i < |a| && a[i].key == k;
        assert (a + b)[i] == a[i];
      }
    }
    assert m.Keys == n.Keys;
  }

  /** `ops` puts the entries of `es` after the first, in order, and the first one last. */
  ghost predicate PutsRotated(ops: seq<Op>, es: seq<Entry>)
  {
    && |ops| == |es| > 0
    && ops[|es| - 1] == Put(es[0].key, es[0].value)
    && forall i | 0 < i < |es| :: ops[i - 1] == Put(es[i].key, es[i].value)
  }

  /** Where the entry of a put stands. */
  function Rotated(n: nat, o: nat): nat
    requires o < n
  {
    if o == n - 1 then 0 else o + 1
  }

  lemma PutsRotatedAt(ops: seq<Op>, es: seq<Entry>)
    requires PutsRotated(ops, es)
    ensures forall o | 0 <= o < |ops| :: ops[o] == Put(es[Rotated(|es|, o)].key, es[Rotated(|es|, o)].value)
  {
    forall o | 0 <= o < |ops| ensures ops[o] == Put(es[Rotated(|es|, o)].key, es[Rotated(|es|, o)].value) {
      assert o < |es| - 1 ==> ops[o + 1 - 1] == Put(es[o + 1].key, es[o + 1].value);
    }
  }

  lemma PutsRotatedKeys(ops: seq<Op>, es: seq<Entry>)
    requires PutsRotated(ops, es) && Sorted(es)
    ensures AllPuts(ops) && DistinctKeys(ops) && KeysOf(ops) == ToStore(es).Keys
  {
    PutsRotatedAt(ops, es);
    SortedDistinct(es);
    RotatedKeys(ops, es);
  }

  lemma RotatedKeys(ops: seq<Op>, es: seq<Entry>)
    requires PutsRotated(ops, es) && Sorted(es)
    ensures KeysOf(ops) == ToStore(es).Keys
  {
    PutsRotatedAt(ops, es);
    hide PutsRotated, Sorted;
    forall k | k in ToStore(es) ensures k in KeysOf(ops) {
      var i :| 0 <= i < |es| && es[i].key == k;
      assert ops[if i == 0 then |es| - 1 else i - 1].key == k;
    }
    forall k | k in KeysOf(ops) ensures k in ToStore(es) {
      var o :| 0 <= o < |ops| && ops[o].key == k;
      assert es[Rotated(|es|, o)].key == k;
    }
  }

  lemma ApplyPutsRotated(db: Store, ops: seq<Op>, es: seq<Entry>)
    requires PutsRotated(ops, es) && Sorted(es)
    ensures Apply(db, ops) == db + ToStore(es)
  {
    PutsRotatedKeys(ops, es);
    ApplyPutsFrame(db, ops);
    var r, m := Apply(db, ops), ToStore(es);
    forall k | k in m ensures r[k] == m[k] {
      var i :| 0 <= i < |es| && es[i].key == k;
      var o := if i == 0 then |es| - 1 else i - 1;
      assert ops[o] == Put(es[i].key, es[i].value);
      ApplyPutsValue(db, ops, o);
    }
    assert r.Keys == (db + m).Keys;
  }
}
