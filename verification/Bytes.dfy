/**
 Byte strings as the program uses them: fixed-width integers in both byte orders,
 32-byte hashes, and the lexicographic order in which LevelDB iterates its keys.
 */
module Bytes {
  import opened Reversal

  type Byte = x: int | 0 <= x < 256

  type Bytes = seq<Byte>

  /** A Go `[32]byte`: block hashes, commits and fingerprints. */
  type Hash = b: Bytes | |b| == 32 witness seq(32, _ => 0)

  function Zeros(w: nat): (b: Bytes)
    ensures |b| == w
  {
    seq(w, _ => 0)
  }

  /** The all-zero hash, `empty` in the source. */
  const ZERO: Hash := Zeros(32)

  const TWO_32: nat := 0x1_0000_0000
  const TWO_63: nat := 0x8000_0000_0000_0000
  const TWO_64: nat := 0x1_0000_0000_0000_0000

  lemma ZeroBytes()
    ensures |ZERO| == 32 && forall i | 0 <= i < 32 :: ZERO[i] == 0
  {
  }

  lemma ConcatAssoc<T>(a: seq<T>, b: seq<T>, c: seq<T>)
    ensures (a + b) + c == a + (b + c)
  {
  }

  lemma TakeSnoc<T>(s: seq<T>, i: nat)
    requires i < |s|
    ensures s[..i + 1] == s[..i] + [s[i]]
  {
  }

  // ---------------------------------------------------------------- order

  /** Strict lexicographic order; a proper prefix comes first. */
  predicate Less(a: Bytes, b: Bytes)
  {
    b != [] && (a == [] || a[0] < b[0] || (a[0] == b[0] && Less(a[1..], b[1..])))
  }

  lemma {:induction false} LessIrreflexive(a: Bytes)
    ensures !Less(a, a)
  {
    if a != [] {
      LessIrreflexive(a[1..]);
    }
  }

  lemma {:induction false} LessTransitive(a: Bytes, b: Bytes, c: Bytes)
    requires Less(a, b) && Less(b, c)
    ensures Less(a, c)
  {
    if a != [] && a[0] == b[0] == c[0] {
      LessTransitive(a[1..], b[1..], c[1..]);
    }
  }

  lemma {:induction false} LessTotal(a: Bytes, b: Bytes)
    ensures a == b || Less(a, b) || Less(b, a)
  {
    if a != [] && b != [] && a[0] == b[0] {
      LessTotal(a[1..], b[1..]);
      assert a == [a[0]] + a[1..] && b == [b[0]] + b[1..];
    }
  }

  /** Equally long heads decide first; equal heads leave the decision to the tails. */
  lemma {:induction false} LessConcat(a: Bytes, b: Bytes, x: Bytes, y: Bytes)
    requires |a| == |b|
    ensures Less(a + x, b + y) <==> Less(a, b) || (a == b && Less(x, y))
  {
    if a == [] {
      assert a + x == x && b + y == y;
    } else {
      assert (a + x)[1..] == a[1..] + x && (b + y)[1..] == b[1..] + y;
      LessConcat(a[1..], b[1..], x, y);
      assert a == [a[0]] + a[1..] && b == [b[0]] + b[1..];
    }
  }

  /** `a` ends, or has the smaller byte, at the first place `i` where the two part. */
  ghost predicate PartsAt(a: Bytes, b: Bytes, i: nat)
  {
    i <= |a| && i < |b| && a[..i] == b[..i] && (i == |a| || a[i] < b[i])
  }

  lemma {:induction false} LessParts(a: Bytes, b: Bytes)
    ensures Less(a, b) <==> exists i: nat :: PartsAt(a, b, i)
  {
    if b != [] && a != [] && a[0] == b[0] {
      LessParts(a[1..], b[1..]);
      if i: nat :| PartsAt(a[1..], b[1..], i) {
        assert a[..i + 1] == [a[0]] + a[1..][..i] && b[..i + 1] == [b[0]] + b[1..][..i];
        assert PartsAt(a, b, i + 1);
      }
      if i: nat :| PartsAt(a, b, i) {
        assert i > 0 && a[1..][..i - 1] == a[..i][1..] && b[1..][..i - 1] == b[..i][1..];
        assert PartsAt(a[1..], b[1..], i - 1);
      }
    } else if b != [] && (a == [] || a[0] < b[0]) {
      assert PartsAt(a, b, 0);
    } else {
      forall i: nat ensures !PartsAt(a, b, i) {
        assert 0 < i <= |a| && i < |b| ==> a[..i][0] == a[0] && b[..i][0] == b[0];
      }
    }
  }

  // ---------------------------------------------------------------- big endian

  function Pow256(w: nat): (r: nat)
    ensures r > 0
  {
    if w == 0 then 1 else 256 * Pow256(w - 1)
  }

  lemma Pow256Values()
    ensures Pow256(1) == 256 && Pow256(2) == 0x1_0000 && Pow256(4) == TWO_32 && Pow256(8) == TWO_64
  {
    assert Pow256(2) == 256 * Pow256(1);
    assert Pow256(3) == 256 * Pow256(2);
    assert Pow256(4) == 256 * Pow256(3);
    assert Pow256(5) == 256 * Pow256(4);
    assert Pow256(6) == 256 * Pow256(5);
    assert Pow256(7) == 256 * Pow256(6);
    assert Pow256(8) == 256 * Pow256(7);
  }

  /** `n >> (8 * k)`. */
  function ShiftRight(n: nat, k: nat): nat
    decreases k
  {
    if k == 0 then n else ShiftRight(n / 256, k - 1)
  }

  /** The low `w` bytes of `n`, most significant first. */
  function BigEndian(n: nat, w: nat): (r: Bytes)
    ensures |r| == w
  {
    seq(w, i requires 0 <= i < w => ShiftRight(n, w - 1 - i) % 256)
  }

  lemma BigEndianUnfold(n: nat, w: nat)
    requires w > 0
    ensures BigEndian(n, w) == BigEndian(n / 256, w - 1) + [n % 256]
  {
    forall i | 0 <= i < w - 1 ensures BigEndian(n, w)[i] == BigEndian(n / 256, w - 1)[i] {
      assert ShiftRight(n, w - 1 - i) == ShiftRight(n / 256, w - 2 - i);
    }
    assert BigEndian(n, w)[w - 1] == ShiftRight(n, 0) % 256 == n % 256;
  }

  /** The number a big-endian byte string denotes. */
  function FromBigEndian(b: Bytes): (n: nat)
    ensures n < Pow256(|b|)
  {
    if b == [] then 0 else 256 * FromBigEndian(b[..|b| - 1]) + b[|b| - 1]
  }

  lemma {:induction false} BigEndianRoundTrip(n: nat, w: nat)
    requires n < Pow256(w)
    ensures FromBigEndian(BigEndian(n, w)) == n
    decreases w
  {
    if w > 0 {
      BigEndianUnfold(n, w);
      BigEndianRoundTrip(n / 256, w - 1);
      var b := BigEndian(n, w);
      assert b[..w - 1] == BigEndian(n / 256, w - 1);
    }
  }

  lemma Append256(n: nat, x: Byte)
    ensures (256 * n + x) / 256 == n && (256 * n + x) % 256 == x
  {
  }

  lemma {:induction false} FromBigEndianRoundTrip(b: Bytes)
    ensures BigEndian(FromBigEndian(b), |b|) == b
  {
    hide BigEndian, Pow256;
    if b == [] {
      assert |BigEndian(FromBigEndian(b), 0)| == 0;
    } else {
      var m := |b| - 1;
      FromBigEndianRoundTrip(b[..m]);
      BigEndianUnfold(FromBigEndian(b), |b|);
      Append256(FromBigEndian(b[..m]), b[m]);
      assert b == b[..m] + [b[m]];
    }
  }

  /** On numbers that fit, byte order is numeric order: this is what every key scan relies on. */
  lemma {:induction false} BigEndianOrder(n: nat, m: nat, w: nat)
    requires n < Pow256(w) && m < Pow256(w)
    ensures Less(BigEndian(n, w), BigEndian(m, w)) <==> n < m
    ensures BigEndian(n, w) == BigEndian(m, w) <==> n == m
    decreases w
  {
    if w > 0 {
      BigEndianUnfold(n, w);
      BigEndianUnfold(m, w);
      BigEndianOrder(n / 256, m / 256, w - 1);
      LessConcat(BigEndian(n / 256, w - 1), BigEndian(m / 256, w - 1), [n % 256], [m % 256]);
      BigEndianRoundTrip(n, w);
      BigEndianRoundTrip(m, w);
    }
  }

  // ---------------------------------------------------------------- little endian

  function LittleEndian(n: nat, w: nat): (r: Bytes)
    ensures |r| == w
  {
    Flip(BigEndian(n, w))
  }

  function FromLittleEndian(b: Bytes): (n: nat)
    ensures n < Pow256(|b|)
  {
    FromBigEndian(Flip(b))
  }

  lemma LittleEndianRoundTrip(n: nat, w: nat)
    requires n < Pow256(w)
    ensures FromLittleEndian(LittleEndian(n, w)) == n
  {
    BigEndianRoundTrip(n, w);
    FlipTwice(BigEndian(n, w));
  }

  /** The first byte is the least significant. */
  lemma FromLittleEndianFirst(b: Bytes)
    ensures FromLittleEndian([]) == 0
    ensures b != [] ==> FromLittleEndian(b) == b[0] + 256 * FromLittleEndian(b[1..])
  {
    if b != [] {
      FlipCons(b[0], b[1..]);
      assert b == [b[0]] + b[1..];
      var f := Flip(b[1..]) + [b[0]];
      assert f[..|f| - 1] == Flip(b[1..]);
    }
  }

  lemma LittleEndianPair(b: Bytes)
    requires |b| == 2
    ensures FromLittleEndian(b) == b[0] + 0x100 * (b[1] as int)
  {
    hide FromLittleEndian;
    FromLittleEndianFirst(b);
    FromLittleEndianFirst(b[1..]);
    assert b[1..][1..] == [];
  }

  lemma LittleEndianTail(b: Bytes)
    requires |b| > 2
    ensures FromLittleEndian(b) == b[0] + 0x100 * (b[1] as int) + 0x1_0000 * FromLittleEndian(b[2..])
  {
    hide FromLittleEndian;
    FromLittleEndianFirst(b);
    FromLittleEndianFirst(b[1..]);
    assert b[1..][1..] == b[2..];
  }

  /** The values of four and of eight bytes. */
  lemma LittleEndianValues(b: Bytes)
    ensures |b| == 4 ==> FromLittleEndian(b) == b[0] + 0x100 * (b[1] as int) + 0x1_0000 * (b[2] as int) + 0x100_0000 * (b[3] as int)
    ensures |b| == 8 ==> FromLittleEndian(b) == b[0] + 0x100 * (b[1] as int) + 0x1_0000 * (b[2] as int) + 0x100_0000 * (b[3] as int)
                                              + 0x1_0000_0000 * (b[4] as int) + 0x100_0000_0000 * (b[5] as int)
                                              + 0x1_0000_0000_0000 * (b[6] as int) + 0x100_0000_0000_0000 * (b[7] as int)
  {
    hide FromLittleEndian;
    if |b| == 4 {
      LittleEndianTail(b);
      LittleEndianPair(b[2..]);
    } else if |b| == 8 {
      LittleEndianTail(b);
      LittleEndianTail(b[2..]);
      LittleEndianTail(b[2..][2..]);
      LittleEndianPair(b[2..][2..][2..]);
    }
  }
}
