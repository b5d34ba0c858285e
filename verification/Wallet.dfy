/**
 The wallet text format: one line for each construct, a network-specific prefix followed by
 hexadecimal fields. Loading passes constructs to libcomb's loaders; the sequence of those
 calls is what a load does.
 */
module Wallet {
  import opened Wrappers
  import opened Bytes
  import opened ChainState
  import opened Hex

  datatype Network = Mainnet | Testnet

  datatype Kind = KStack | KTx | KKey | KMerkle | KDecider | KUnsigned

  /** The fields of libcomb's constructs that the text form carries. */
  datatype Construct =
    | Key(keys: seq<Hash>)
    | Stack(change: Hash, destination: Hash, sum: nat)
    | Transaction(source: Hash, destination: Hash, signature: seq<Hash>)
    | Decider(first: Hash, second: Hash)
    | Merkle(tips: seq<Hash>, signatures: seq<Hash>, branches: seq<Hash>, leaf: Hash, next: Hash)
    | UnsignedMerkle(tips: seq<Hash>, next: Hash, root: Hash)

  ghost predicate WellFormed(c: Construct)
  {
    match c
    case Key(keys) => |keys| == 21
    case Stack(_, _, sum) => sum < TWO_64
    case Transaction(_, _, signature) => |signature| == 21
    case Decider(_, _) => true
    case Merkle(tips, signatures, branches, _, _) => |tips| == 2 && |signatures| == 2 && |branches| == 16
    case UnsignedMerkle(tips, _, _) => |tips| == 2
  }

  function KindOf(c: Construct): Kind
  {
    match c
    case Key(_) => KKey
    case Stack(_, _, _) => KStack
    case Transaction(_, _, _) => KTx
    case Decider(_, _) => KDecider
    case Merkle(_, _, _, _, _) => KMerkle
    case UnsignedMerkle(_, _, _) => KUnsigned
  }

  function Prefix(net: Network, kind: Kind): string
  {
    match net
    case Mainnet => (
      match kind
      case KStack => "/stack/data/"
      case KTx => "/tx/recv/"
      case KKey => "/wallet/data/"
      case KMerkle => "/merkle/data/"
      case KUnsigned => "/contract/data/"
      case KDecider => "/purse/data/")
    case Testnet => (
      match kind
      case KStack => "\\stack\\data\\"
      case KTx => "\\tx\\recv\\"
      case KKey => "\\wallet\\data\\"
      case KMerkle => "\\merkle\\data\\"
      case KUnsigned => "\\contract\\data\\"
      case KDecider => "\\purse\\data\\")
  }

  /** The test network writes the main network's prefixes with backslashes. */
  lemma PrefixForms(kind: Kind)
    ensures Prefix(Mainnet, kind) in {"/stack/data/", "/tx/recv/", "/wallet/data/", "/merkle/data/", "/contract/data/", "/purse/data/"}
    ensures Prefix(Mainnet, kind)[1] == match kind case KStack => 's' case KTx => 't' case KKey => 'w'
                                                   case KMerkle => 'm' case KUnsigned => 'c' case KDecider => 'p'
    ensures |Prefix(Testnet, kind)| == |Prefix(Mainnet, kind)|
    ensures forall i | 0 <= i < |Prefix(Mainnet, kind)| ::
              Prefix(Testnet, kind)[i] == if Prefix(Mainnet, kind)[i] == '/' then '\\' else Prefix(Mainnet, kind)[i]
  {
  }

  // ---------------------------------------------------------------- exporting

  /** The bytes a construct exports. A decider is padded in front with an empty field. */
  function Payload(c: Construct): Bytes
  {
    match c
    case Key(keys) => Flatten(keys)
    case Stack(change, destination, sum) => change + (destination + BigEndian(sum, 8))
    case Transaction(source, destination, signature) => Flatten([source, destination] + signature)
    case Decider(first, second) => Flatten([ZERO, first, second])
    case Merkle(tips, signatures, branches, leaf, next) => Flatten(tips + signatures + branches + [leaf, next])
    case UnsignedMerkle(tips, next, root) => Flatten(tips + [next, root])
  }

  /** The fields of a construct, in their order on the line. */
  lemma PayloadLayout(c: Construct)
    requires WellFormed(c)
    ensures match c
            case Key(keys) => Concatenates(Payload(c), keys)
            case Stack(change, destination, sum) =>
              |Payload(c)| == 72 && Payload(c)[0..32] == change && Payload(c)[32..64] == destination
              && FromBigEndian(Payload(c)[64..72]) == sum
            case Transaction(source, destination, signature) => Concatenates(Payload(c), [source, destination] + signature)
            case Decider(first, second) => Concatenates(Payload(c), [ZERO, first, second])
            case Merkle(tips, signatures, branches, leaf, next) =>
              Concatenates(Payload(c), tips + signatures + branches + [leaf, next])
            case UnsignedMerkle(tips, next, root) => Concatenates(Payload(c), tips + [next, root])
  {
    hide Flatten, Concatenates;
    match c {
      case Key(keys) =>
        ConcatenatesFlat(Payload(c), keys);
      case Stack(change, destination, sum) =>
        StackLayout(change, destination, sum);
      case Transaction(source, destination, signature) =>
        ConcatenatesFlat(Payload(c), [source, destination] + signature);
      case Decider(first, second) =>
        ConcatenatesFlat(Payload(c), [ZERO, first, second]);
      case Merkle(tips, signatures, branches, leaf, next) =>
        ConcatenatesFlat(Payload(c), tips + signatures + branches + [leaf, next]);
      case UnsignedMerkle(tips, next, root) =>
        ConcatenatesFlat(Payload(c), tips + [next, root]);
    }
  }

  lemma StackLayout(change: Hash, destination: Hash, sum: nat)
    requires sum < TWO_64
    ensures var p := Payload(Stack(change, destination, sum));
            p[0..32] == change && p[32..64] == destination && FromBigEndian(p[64..72]) == sum
  {
    Pow256Values();
    BigEndianRoundTrip(sum, 8);
    hide BigEndian, FromBigEndian;
    var p := Payload(Stack(change, destination, sum));
    assert p[0..32] == change && p[32..64] == destination && p[64..72] == BigEndian(sum, 8);
  }

  lemma PayloadLength(c: Construct)
    requires WellFormed(c)
    ensures |Payload(c)| == match c case Key(_) => 672 case Stack(_, _, _) => 72 case Transaction(_, _, _) => 736
                                    case Decider(_, _) => 96 case Merkle(_, _, _, _, _) => 704 case UnsignedMerkle(_, _, _) => 128
  {
    PayloadLayout(c);
  }

  function Line(net: Network, c: Construct): string
  {
    Prefix(net, KindOf(c)) + ToHex(Payload(c))
  }

  function Text(net: Network, cs: seq<Construct>): string
  {
    if cs == [] then "" else Line(net, cs[0]) + ("\n" + Text(net, cs[1..]))
  }

  /** The loops that append one hash after another to a line. */
  method AppendHashes(out: string, hashes: seq<Hash>) returns (r: string)
    ensures r == out + ToHex(Flatten(hashes))
  {
    r := out;
    assert hashes[..0] == [];
    for i := 0 to |hashes|
      invariant r == out + ToHex(Flatten(hashes[..i]))
    {
      assert hashes[..i + 1][..i] == hashes[..i];
      ToHexConcat(Flatten(hashes[..i]), hashes[i]);
      ConcatAssoc(out, ToHex(Flatten(hashes[..i])), ToHex(hashes[i]));
      r := r + ToHex(hashes[i]);
    }
    assert hashes[..|hashes|] == hashes;
  }

  /** `wallet_export_key`, `_stack`, `_transaction`, `_decider`, `_merkle_segment`, `_unsigned_merkle_segment`. */
  method ExportConstruct(net: Network, c: Construct) returns (out: string)
    ensures out == Line(net, c)
  {
    out := Prefix(net, KindOf(c));
    match c {
      case Key(keys) =>
        out := AppendHashes(out, keys);
      case Stack(change, destination, sum) =>
        ToHexConcat(change, destination + BigEndian(sum, 8));
        ToHexConcat(destination, BigEndian(sum, 8));
        ConcatAssoc(out, ToHex(change), ToHex(destination) + ToHex(BigEndian(sum, 8)));
        ConcatAssoc(out + ToHex(change), ToHex(destination), ToHex(BigEndian(sum, 8)));
        out := out + ToHex(change) + ToHex(destination) + ToHex(BigEndian(sum, 8));
      case Transaction(source, destination, signature) =>
        ghost var start := out;
        out := AppendHashes(out, [source, destination]);
        out := AppendHashes(out, signature);
        Appended(start, [source, destination], signature);
      case Decider(first, second) =>
        out := AppendHashes(out, [ZERO, first, second]);
      case Merkle(tips, signatures, branches, leaf, next) =>
        ghost var start := out;
        out := AppendHashes(out, tips + signatures);
        out := AppendHashes(out, branches);
        Appended(start, tips + signatures, branches);
        out := AppendHashes(out, [leaf, next]);
        Appended(start, tips + signatures + branches, [leaf, next]);
      case UnsignedMerkle(tips, next, root) =>
        out := AppendHashes(out, tips + [next, root]);
    }
  }

  lemma Appended(start: string, a: seq<Hash>, b: seq<Hash>)
    ensures start + ToHex(Flatten(a)) + ToHex(Flatten(b)) == start + ToHex(Flatten(a + b))
  {
    FlattenConcat(a, b);
    ToHexConcat(Flatten(a), Flatten(b));
    ConcatAssoc(start, ToHex(Flatten(a)), ToHex(Flatten(b)));
  }

  /** What libcomb holds, list by list. */
  datatype Holdings = Holdings(
    keys: seq<Construct>, stacks: seq<Construct>, transactions: seq<Construct>,
    deciders: seq<Construct>, merkles: seq<Construct>, unsigned: seq<Construct>)

  function InOrder(w: Holdings): seq<Construct>
  {
    w.keys + w.stacks + w.transactions + w.deciders + w.merkles + w.unsigned
  }

  /** The constructs of one kind, in their order. */
  function OfKind(cs: seq<Construct>, kind: Kind): seq<Construct>
  {
    if cs == [] then []
    else (if KindOf(cs[0]) == kind then [cs[0]] else []) + OfKind(cs[1..], kind)
  }

  /** Keys first, then stacks, transactions, deciders, merkle segments and unsigned ones. */
  function Place(kind: Kind): nat
  {
    match kind
    case KKey => 0
    case KStack => 1
    case KTx => 2
    case KDecider => 3
    case KMerkle => 4
    case KUnsigned => 5
  }

  ghost predicate InPlace(cs: seq<Construct>)
  {
    forall i, j | 0 <= i < j < |cs| :: Place(KindOf(cs[i])) <= Place(KindOf(cs[j]))
  }

  ghost predicate AllOfKind(cs: seq<Construct>, kind: Kind)
  {
    forall i | 0 <= i < |cs| :: KindOf(cs[i]) == kind
  }

  /** Each list holds its own kind, as libcomb's lists do. */
  ghost predicate OwnKinds(w: Holdings)
  {
    && AllOfKind(w.keys, KKey) && AllOfKind(w.stacks, KStack) && AllOfKind(w.transactions, KTx)
    && AllOfKind(w.deciders, KDecider) && AllOfKind(w.merkles, KMerkle) && AllOfKind(w.unsigned, KUnsigned)
  }

  /** Everything held, each list in its own order, the kinds in theirs. */
  ghost predicate Arranged(w: Holdings, cs: seq<Construct>)
  {
    && OfKind(cs, KKey) == w.keys && OfKind(cs, KStack) == w.stacks && OfKind(cs, KTx) == w.transactions
    && OfKind(cs, KDecider) == w.deciders && OfKind(cs, KMerkle) == w.merkles && OfKind(cs, KUnsigned) == w.unsigned
    && InPlace(cs)
  }

  lemma {:induction false} OfKindConcat(a: seq<Construct>, b: seq<Construct>, kind: Kind)
    ensures OfKind(a + b, kind) == OfKind(a, kind) + OfKind(b, kind)
  {
    if a == [] {
      assert a + b == b && [] + OfKind(b, kind) == OfKind(b, kind);
    } else {
      assert (a + b)[1..] == a[1..] + b;
      OfKindConcat(a[1..], b, kind);
      ConcatAssoc(if KindOf(a[0]) == kind then [a[0]] else [], OfKind(a[1..], kind), OfKind(b, kind));
    }
  }

  lemma {:induction false} OfKindUniform(cs: seq<Construct>, own: Kind, kind: Kind)
    requires AllOfKind(cs, own)
    ensures OfKind(cs, kind) == if kind == own then cs else []
  {
    if cs != [] {
      OfKindUniform(cs[1..], own, kind);
      assert cs == [cs[0]] + cs[1..];
    }
  }

  lemma OfKindInOrder(w: Holdings, kind: Kind)
    requires OwnKinds(w)
    ensures OfKind(InOrder(w), kind) == match kind case KKey => w.keys case KStack => w.stacks case KTx => w.transactions
                                                   case KDecider => w.deciders case KMerkle => w.merkles case KUnsigned => w.unsigned
  {
    hide OfKind, AllOfKind;
    OfKindConcat(w.keys, w.stacks, kind);
    OfKindConcat(w.keys + w.stacks, w.transactions, kind);
    OfKindConcat(w.keys + w.stacks + w.transactions, w.deciders, kind);
    OfKindConcat(w.keys + w.stacks + w.transactions + w.deciders, w.merkles, kind);
    OfKindConcat(w.keys + w.stacks + w.transactions + w.deciders + w.merkles, w.unsigned, kind);
    OfKindUniform(w.keys, KKey, kind);
    OfKindUniform(w.stacks, KStack, kind);
    OfKindUniform(w.transactions, KTx, kind);
    OfKindUniform(w.deciders, KDecider, kind);
    OfKindUniform(w.merkles, KMerkle, kind);
    OfKindUniform(w.unsigned, KUnsigned, kind);
  }

  lemma InPlaceConcat(a: seq<Construct>, b: seq<Construct>, p: nat)
    requires InPlace(a) && (forall i | 0 <= i < |a| :: Place(KindOf(a[i])) < p)
    requires forall i | 0 <= i < |b| :: Place(KindOf(b[i])) == p
    ensures InPlace(a + b) && forall i | 0 <= i < |a + b| :: Place(KindOf((a + b)[i])) < p + 1
  {
  }

  lemma InOrderInPlace(w: Holdings)
    requires OwnKinds(w)
    ensures InPlace(InOrder(w))
  {
    hide InPlace;
    NothingInPlace();
    assert [] + w.keys == w.keys;
    InPlaceConcat([], w.keys, 0);
    InPlaceConcat(w.keys, w.stacks, 1);
    InPlaceConcat(w.keys + w.stacks, w.transactions, 2);
    InPlaceConcat(w.keys + w.stacks + w.transactions, w.deciders, 3);
    InPlaceConcat(w.keys + w.stacks + w.transactions + w.deciders, w.merkles, 4);
    InPlaceConcat(w.keys + w.stacks + w.transactions + w.deciders + w.merkles, w.unsigned, 5);
  }

  lemma NothingInPlace()
    ensures InPlace([])
  {
  }

  /** Constructs in place hold nothing of a kind that comes before the first. */
  lemma {:induction false} NoneBefore(cs: seq<Construct>, kind: Kind)
    requires forall i | 0 <= i < |cs| :: Place(kind) < Place(KindOf(cs[i]))
    ensures OfKind(cs, kind) == []
  {
    if cs != [] {
      NoneBefore(cs[1..], kind);
    }
  }

  /** The constructs of the first of the kinds, then those of the next, and so on. */
  function Gather(cs: seq<Construct>, kinds: seq<Kind>): seq<Construct>
  {
    if kinds == [] then [] else OfKind(cs, kinds[0]) + Gather(cs, kinds[1..])
  }

  lemma {:induction false} GatherOthers(c: Construct, rest: seq<Construct>, kinds: seq<Kind>)
    requires KindOf(c) !in kinds
    ensures Gather([c] + rest, kinds) == Gather(rest, kinds)
  {
    if kinds != [] {
      assert ([c] + rest)[1..] == rest;
      GatherOthers(c, rest, kinds[1..]);
    }
  }

  /** A construct of the first kind there is comes first. */
  lemma {:induction false} GatherFirst(c: Construct, rest: seq<Construct>, kinds: seq<Kind>)
    requires KindOf(c) in kinds && forall i, j | 0 <= i < j < |kinds| :: Place(kinds[i]) < Place(kinds[j])
    requires forall kind | Place(kind) < Place(KindOf(c)) :: OfKind(rest, kind) == []
    ensures Gather([c] + rest, kinds) == [c] + Gather(rest, kinds)
  {
    assert ([c] + rest)[1..] == rest;
    if kinds[0] == KindOf(c) {
      GatherOthers(c, rest, kinds[1..]);
      ConcatAssoc([c], OfKind(rest, kinds[0]), Gather(rest, kinds[1..]));
    } else {
      GatherFirst(c, rest, kinds[1..]);
      assert [] + Gather(rest, kinds[1..]) == Gather(rest, kinds[1..]);
    }
  }

  const KINDS: seq<Kind> := [KKey, KStack, KTx, KDecider, KMerkle, KUnsigned]

  /** The kinds of a list in place, one after another, are the list. */
  lemma {:induction false} InPlaceGathered(cs: seq<Construct>)
    requires InPlace(cs)
    ensures Gather(cs, KINDS) == cs
  {
    hide Gather, OfKind;
    if cs == [] {
      NothingGathered(KINDS);
    } else {
      var c, rest := cs[0], cs[1..];
      InPlaceGathered(rest);
      forall kind | Place(kind) < Place(KindOf(c)) ensures OfKind(rest, kind) == [] {
        NoneBefore(rest, kind);
      }
      assert cs == [c] + rest;
      EveryKind(KindOf(c));
      GatherFirst(c, rest, KINDS);
    }
  }

  lemma {:induction false} NothingGathered(kinds: seq<Kind>)
    ensures Gather([], kinds) == []
  {
    if kinds != [] {
      NothingGathered(kinds[1..]);
    }
  }

  lemma EveryKind(kind: Kind)
    ensures kind in KINDS && forall i, j | 0 <= i < j < |KINDS| :: Place(KINDS[i]) < Place(KINDS[j])
  {
    assert KINDS[0] == KKey && KINDS[1] == KStack && KINDS[2] == KTx;
    assert KINDS[3] == KDecider && KINDS[4] == KMerkle && KINDS[5] == KUnsigned;
  }

  lemma GatherAll(cs: seq<Construct>)
    ensures Gather(cs, KINDS)
         == OfKind(cs, KKey) + (OfKind(cs, KStack) + (OfKind(cs, KTx)
            + (OfKind(cs, KDecider) + (OfKind(cs, KMerkle) + OfKind(cs, KUnsigned)))))
  {
    hide OfKind;
    GatherNext(cs, KKey, [KStack, KTx, KDecider, KMerkle, KUnsigned]);
    GatherNext(cs, KStack, [KTx, KDecider, KMerkle, KUnsigned]);
    GatherNext(cs, KTx, [KDecider, KMerkle, KUnsigned]);
    GatherNext(cs, KDecider, [KMerkle, KUnsigned]);
    GatherNext(cs, KMerkle, [KUnsigned]);
    GatherNext(cs, KUnsigned, []);
    hide Gather;
    assert OfKind(cs, KUnsigned) + [] == OfKind(cs, KUnsigned);
    assert KINDS == [KKey] + [KStack, KTx, KDecider, KMerkle, KUnsigned];
    assert [KStack, KTx, KDecider, KMerkle, KUnsigned] == [KStack] + [KTx, KDecider, KMerkle, KUnsigned];
    assert [KTx, KDecider, KMerkle, KUnsigned] == [KTx] + [KDecider, KMerkle, KUnsigned];
    assert [KDecider, KMerkle, KUnsigned] == [KDecider] + [KMerkle, KUnsigned];
    assert [KMerkle, KUnsigned] == [KMerkle] + [KUnsigned] && [KUnsigned] == [KUnsigned] + [];
  }

  lemma GatherNext(cs: seq<Construct>, kind: Kind, kinds: seq<Kind>)
    ensures Gather(cs, [kind] + kinds) == OfKind(cs, kind) + Gather(cs, kinds) && Gather(cs, []) == []
  {
    hide OfKind;
    assert ([kind] + kinds)[1..] == kinds;
  }

  lemma InOrderNested(w: Holdings)
    ensures InOrder(w) == w.keys + (w.stacks + (w.transactions + (w.deciders + (w.merkles + w.unsigned))))
  {
    ConcatAssoc(w.keys + w.stacks + w.transactions + w.deciders, w.merkles, w.unsigned);
    ConcatAssoc(w.keys + w.stacks + w.transactions, w.deciders, w.merkles + w.unsigned);
    ConcatAssoc(w.keys + w.stacks, w.transactions, w.deciders + (w.merkles + w.unsigned));
    ConcatAssoc(w.keys, w.stacks, w.transactions + (w.deciders + (w.merkles + w.unsigned)));
  }

  /** There is exactly one such arrangement. */
  lemma ArrangedInOrder(w: Holdings, cs: seq<Construct>)
    requires OwnKinds(w)
    ensures Arranged(w, cs) <==> cs == InOrder(w)
  {
    hide OfKind, InPlace, OwnKinds;
    if Arranged(w, cs) {
      InPlaceGathered(cs);
      GatherAll(cs);
      InOrderNested(w);
    }
    OfKindInOrder(w, KKey);
    OfKindInOrder(w, KStack);
    OfKindInOrder(w, KTx);
    OfKindInOrder(w, KDecider);
    OfKindInOrder(w, KMerkle);
    OfKindInOrder(w, KUnsigned);
    InOrderInPlace(w);
  }

  lemma {:induction false} TextConcat(net: Network, a: seq<Construct>, b: seq<Construct>)
    ensures Text(net, a + b) == Text(net, a) + Text(net, b)
  {
    hide Line;
    if a == [] {
      assert a + b == b && Text(net, a) + Text(net, b) == Text(net, b);
    } else {
      TextConcat(net, a[1..], b);
      assert (a + b)[1..] == a[1..] + b;
      ConcatAssoc("\n", Text(net, a[1..]), Text(net, b));
      ConcatAssoc(Line(net, a[0]), "\n" + Text(net, a[1..]), Text(net, b));
    }
  }

  lemma TextSnoc(net: Network, cs: seq<Construct>, c: Construct)
    ensures Text(net, cs + [c]) == Text(net, cs) + Line(net, c) + "\n"
  {
    TextConcat(net, cs, [c]);
    assert Text(net, [c][1..]) == "";
    assert Text(net, [c]) == Line(net, c) + "\n";
    ConcatAssoc(Text(net, cs), Line(net, c), "\n");
  }

  method ExportList(net: Network, out: string, cs: seq<Construct>) returns (r: string)
    ensures r == out + Text(net, cs)
  {
    r := out;
    assert cs[..0] == [] && out + "" == out;
    for i := 0 to |cs|
      invariant r == out + Text(net, cs[..i])
    {
      var line := ExportConstruct(net, cs[i]);
      TakeSnoc(cs, i);
      TextSnoc(net, cs[..i], cs[i]);
      ConcatAssoc(out, Text(net, cs[..i]), line + "\n");
      ConcatAssoc(Text(net, cs[..i]), line, "\n");
      r := r + (line + "\n");
    }
    assert cs[..|cs|] == cs;
  }

  /** `wallet_export`: one line for everything held, arranged by kind. */
  method Export(net: Network, w: Holdings) returns (out: string)
    ensures out == Text(net, InOrder(w))
    ensures OwnKinds(w) ==> Arranged(w, InOrder(w)) && forall cs | Arranged(w, cs) :: out == Text(net, cs)
  {
    hide OwnKinds, Arranged, Text;
    if OwnKinds(w) {
      forall cs ensures Arranged(w, cs) <==> cs == InOrder(w) {
        ArrangedInOrder(w, cs);
      }
    }
    EmptyText(net);
    out := ExportList(net, "", w.keys);
    assert "" + Text(net, w.keys) == Text(net, w.keys);
    out := ExportList(net, out, w.stacks);
    TextConcat(net, w.keys, w.stacks);
    out := ExportList(net, out, w.transactions);
    TextConcat(net, w.keys + w.stacks, w.transactions);
    out := ExportList(net, out, w.deciders);
    TextConcat(net, w.keys + w.stacks + w.transactions, w.deciders);
    out := ExportList(net, out, w.merkles);
    TextConcat(net, w.keys + w.stacks + w.transactions + w.deciders, w.merkles);
    out := ExportList(net, out, w.unsigned);
    TextConcat(net, w.keys + w.stacks + w.transactions + w.deciders + w.merkles, w.unsigned);
  }

  lemma EmptyText(net: Network)
    ensures Text(net, []) == ""
  {
  }

  // ---------------------------------------------------------------- loading one construct

  /** The `n` 32-byte fields from byte `at` on. */
  function Fields(data: Bytes, at: nat, n: nat): (r: seq<Hash>)
    requires at + 32 * n <= |data|
    ensures |r| == n
    decreases n
  {
    if n == 0 then [] else [data[at..at + 32]] + Fields(data, at + 32, n - 1)
  }

  /** The `wallet_load_*` functions: `None` is a malformed length, which loads nothing. */
  function LoadPayload(kind: Kind, data: Bytes): Option<Construct>
  {
    match kind
    case KStack =>
      if |data| != 72 then None else Some(Stack(data[0..32], data[32..64], FromBigEndian(data[64..72])))
    case KKey =>
      if |data| != 672 then None else Some(Key(Fields(data, 0, 21)))
    case KTx =>
      if |data| != 736 then None else Some(Transaction(data[0..32], data[32..64], Fields(data, 64, 21)))
    case KMerkle =>
      if |data| != 704 then None
      else Some(Merkle(Fields(data, 0, 2), Fields(data, 64, 2), Fields(data, 128, 16), data[640..672], data[672..704]))
    case KUnsigned =>
      if |data| != 128 then None else Some(UnsignedMerkle(Fields(data, 0, 2), data[64..96], data[96..128]))
    case KDecider =>
      if |data| == 96 then Some(Decider(data[32..64], data[64..96]))
      else if |data| == 64 then Some(Decider(data[0..32], data[32..64]))
      else None
  }

  /** The lengths the loaders take: whole fields, for a decider with or without the old format's padding. */
  lemma PayloadSizes(kind: Kind, data: Bytes)
    ensures LoadPayload(kind, data).Some? <==>
            match kind case KStack => |data| == 32 + 32 + 8 case KKey => |data| == 21 * 32 case KTx => |data| == 23 * 32
                       case KMerkle => |data| == 22 * 32 case KUnsigned => |data| == 4 * 32
                       case KDecider => |data| == 3 * 32 || |data| == 2 * 32
    ensures LoadPayload(kind, data).Some? ==> KindOf(LoadPayload(kind, data).value) == kind
  {
  }

  /** The two forms of a decider: its fields alone, or behind a field that is ignored. */
  lemma DeciderForms(padding: Hash, first: Hash, second: Hash)
    ensures LoadPayload(KDecider, first + second) == Some(Decider(first, second))
    ensures LoadPayload(KDecider, padding + first + second) == Some(Decider(first, second))
  {
    var two, three := first + second, padding + first + second;
    assert two[0..32] == first && two[32..64] == second;
    assert three[32..64] == first && three[64..96] == second;
  }

  lemma {:induction false} FieldsFlatten(before: Bytes, hs: seq<Hash>, after: Bytes)
    ensures |Flatten(hs)| == 32 * |hs|
    ensures Fields(before + (Flatten(hs) + after), |before|, |hs|) == hs
    decreases |hs|
  {
    FlattenLength(hs);
    if hs != [] {
      var data := before + (Flatten(hs) + after);
      FlattenFirst(hs);
      FlattenLength(hs[1..]);
      ConcatAssoc(hs[0], Flatten(hs[1..]), after);
      ConcatAssoc(before, hs[0], Flatten(hs[1..]) + after);
      assert data[|before|..|before| + 32] == hs[0];
      FieldsFlatten(before + hs[0], hs[1..], after);
    }
  }

  lemma FlattenFirst(hs: seq<Hash>)
    requires hs != []
    ensures Flatten(hs) == hs[0] + Flatten(hs[1..])
  {
    assert hs == [hs[0]] + hs[1..];
    FlattenConcat([hs[0]], hs[1..]);
    FlattenOne(hs[0]);
  }

  lemma FlattenOne(h: Hash)
    ensures Flatten([h]) == h
  {
    assert [h][..0] == [];
    assert Flatten([h]) == [] + h;
  }

  /** The fields in the middle of a flattened list. */
  lemma FieldsAt(a: seq<Hash>, hs: seq<Hash>, b: seq<Hash>)
    ensures |Flatten(a + hs + b)| == 32 * (|a| + |hs| + |b|)
    ensures Fields(Flatten(a + hs + b), 32 * |a|, |hs|) == hs
  {
    FlattenConcat(a + hs, b);
    FlattenConcat(a, hs);
    ConcatAssoc(Flatten(a), Flatten(hs), Flatten(b));
    FlattenLength(a);
    FlattenLength(hs);
    FlattenLength(b);
    FieldsFlatten(Flatten(a), hs, Flatten(b));
  }

  /** One field in the middle of a flattened list. */
  lemma FieldAt(all: seq<Hash>, i: nat)
    requires i < |all|
    ensures |Flatten(all)| == 32 * |all| && Flatten(all)[32 * i..32 * i + 32] == all[i]
  {
    assert all == all[..i] + [all[i]] + all[i + 1..];
    FieldsAt(all[..i], [all[i]], all[i + 1..]);
    assert Fields(Flatten(all), 32 * i, 1)[0] == all[i];
  }

  /** Every construct survives its own payload, a decider its padded three-field form. */
  lemma PayloadRoundTrip(c: Construct)
    requires WellFormed(c)
    ensures LoadPayload(KindOf(c), Payload(c)) == Some(c)
  {
    match c {
      case Key(keys) =>
        assert [] + keys + [] == keys;
        FieldsAt([], keys, []);
      case Stack(change, destination, sum) =>
        StackLayout(change, destination, sum);
      case Transaction(source, destination, signature) =>
        var all := [source, destination] + signature;
        assert all == all + [];
        FieldsAt([source, destination], signature, []);
        FieldAt(all, 0);
        FieldAt(all, 1);
      case Decider(first, second) =>
        FieldAt([ZERO, first, second], 1);
        FieldAt([ZERO, first, second], 2);
      case Merkle(tips, signatures, branches, leaf, next) =>
        MerkleRoundTrip(tips, signatures, branches, leaf, next);
      case UnsignedMerkle(tips, next, root) =>
        var all := tips + [next, root];
        assert [] + tips + [next, root] == all;
        FieldsAt([], tips, [next, root]);
        FieldAt(all, 2);
        FieldAt(all, 3);
    }
  }

  lemma MerkleRoundTrip(tips: seq<Hash>, signatures: seq<Hash>, branches: seq<Hash>, leaf: Hash, next: Hash)
    requires |tips| == 2 && |signatures| == 2 && |branches| == 16
    ensures var c := Merkle(tips, signatures, branches, leaf, next); LoadPayload(KMerkle, Payload(c)) == Some(c)
  {
    hide Flatten, Fields;
    var end := [leaf, next];
    var all := tips + signatures + branches + end;
    assert all == [] + tips + (signatures + branches + end);
    FieldsAt([], tips, signatures + branches + end);
    assert all == tips + signatures + (branches + end);
    FieldsAt(tips, signatures, branches + end);
    FieldsAt(tips + signatures, branches, end);
    FieldAt(all, 20);
    FieldAt(all, 21);
  }

  // ---------------------------------------------------------------- loading a line

  /** What is left of the line, and the constructs handed to libcomb so far. */
  datatype Loading = Loading(text: string, loaded: seq<Construct>)

  /** One `if` of `wallet_load_construct`: it trims the line that later ones see. */
  function Branch(net: Network, kind: Kind, s: Loading): Loading
  {
    if Prefix(net, kind) <= s.text then
      var rest := s.text[|Prefix(net, kind)|..];
      var c := LoadPayload(kind, FromHex(rest));
      Loading(rest, if c.None? then s.loaded else s.loaded + [c.value])
    else s
  }

  /** `wallet_load_construct`: six tests one after another, none excluding the next. */
  function LoadLine(net: Network, line: string): seq<Construct>
  {
    var s := Branch(net, KStack, Loading(line, []));
    var s := Branch(net, KTx, s);
    var s := Branch(net, KKey, s);
    var s := Branch(net, KMerkle, s);
    var s := Branch(net, KDecider, s);
    Branch(net, KUnsigned, s).loaded
  }

  /** Two prefixes of a network differ in their second character. */
  lemma PrefixClash(net: Network, a: Kind, b: Kind, hex: string)
    requires a != b
    ensures !(Prefix(net, b) <= Prefix(net, a) + hex)
  {
    var t := Prefix(net, a) + hex;
    assert t[1] == Prefix(net, a)[1] != Prefix(net, b)[1];
  }

  /** Hexadecimal text carries no prefix. */
  lemma HexNoPrefix(net: Network, b: Kind, hex: string)
    requires AllDigits(hex)
    ensures !(Prefix(net, b) <= hex)
  {
    assert Prefix(net, b)[0] == if net == Mainnet then '/' else '\\';
  }

  lemma BranchOther(net: Network, c: Construct, kind: Kind)
    requires kind != KindOf(c)
    ensures Branch(net, kind, Loading(Line(net, c), [])) == Loading(Line(net, c), [])
  {
    PrefixClash(net, KindOf(c), kind, ToHex(Payload(c)));
  }

  lemma BranchSelf(net: Network, c: Construct)
    requires WellFormed(c)
    ensures Branch(net, KindOf(c), Loading(Line(net, c), [])) == Loading(ToHex(Payload(c)), [c])
  {
    hide LoadPayload, Payload, Prefix;
    PayloadRoundTrip(c);
    HexRoundTrip(Payload(c));
    var p, hex := Prefix(net, KindOf(c)), ToHex(Payload(c));
    assert p <= p + hex && (p + hex)[|p|..] == hex;
  }

  lemma BranchDone(net: Network, c: Construct, kind: Kind)
    ensures Branch(net, kind, Loading(ToHex(Payload(c)), [c])) == Loading(ToHex(Payload(c)), [c])
  {
    HexRoundTrip(Payload(c));
    HexNoPrefix(net, kind, ToHex(Payload(c)));
  }

  /** A branch does to an exported line what its position calls for: it fires for its own kind only. */
  lemma BranchAt(net: Network, c: Construct, kind: Kind, fired: bool)
    requires WellFormed(c) && (fired ==> kind != KindOf(c))
    ensures var before := if fired then Loading(ToHex(Payload(c)), [c]) else Loading(Line(net, c), []);
            var after := if fired || kind == KindOf(c) then Loading(ToHex(Payload(c)), [c]) else Loading(Line(net, c), []);
            Branch(net, kind, before) == after
  {
    hide Branch, Line, Payload, ToHex;
    if fired {
      BranchDone(net, c, kind);
    } else if kind == KindOf(c) {
      BranchSelf(net, c);
    } else {
      BranchOther(net, c, kind);
    }
  }

  /** On both networks an exported line loads exactly the construct it came from: one branch fires, once. */
  lemma LineRoundTrip(net: Network, c: Construct)
    requires WellFormed(c)
    ensures LoadLine(net, Line(net, c)) == [c]
  {
    hide Branch, Line, Payload, ToHex;
    var k := KindOf(c);
    BranchAt(net, c, KStack, false);
    BranchAt(net, c, KTx, k == KStack);
    BranchAt(net, c, KKey, k == KStack || k == KTx);
    BranchAt(net, c, KMerkle, k == KStack || k == KTx || k == KKey);
    BranchAt(net, c, KDecider, k == KStack || k == KTx || k == KKey || k == KMerkle);
    BranchAt(net, c, KUnsigned, k != KUnsigned);
  }

  /** An exported decider stands behind 64 zeros. */
  lemma DeciderPadding(net: Network, first: Hash, second: Hash)
    ensures Line(net, Decider(first, second)) == Prefix(net, KDecider) + (ToHex(ZERO) + (ToHex(first) + ToHex(second)))
    ensures forall i | 0 <= i < 64 :: ToHex(ZERO)[i] == '0'
  {
    hide ToHex, Prefix, Flatten;
    ZeroText();
    FlattenThree(ZERO, first, second);
    ToHexConcat(ZERO, first + second);
    ToHexConcat(first, second);
  }

  lemma ZeroText()
    ensures |ToHex(ZERO)| == 64 && forall i | 0 <= i < 64 :: ToHex(ZERO)[i] == '0'
  {
    hide ToHex;
    forall i | 0 <= i < 64 ensures ToHex(ZERO)[i] == '0' {
      ToHexDigits(ZERO, i / 2);
      assert i == 2 * (i / 2) || i == 2 * (i / 2) + 1;
    }
  }

  lemma FlattenThree(a: Hash, b: Hash, c: Hash)
    ensures Flatten([a, b, c]) == a + (b + c)
  {
    hide Flatten;
    assert [a, b, c] == [a] + ([b] + [c]);
    FlattenConcat([a], [b] + [c]);
    FlattenConcat([b], [c]);
    FlattenOne(a);
    FlattenOne(b);
    FlattenOne(c);
  }

  /** A line of the new format, without padding, loads as well. */
  lemma TwoFieldDecider(net: Network, first: Hash, second: Hash)
    ensures LoadLine(net, Prefix(net, KDecider) + ToHex(first + second)) == [Decider(first, second)]
  {
    var hex := ToHex(first + second);
    var line := Prefix(net, KDecider) + hex;
    HexRoundTrip(first + second);
    DeciderForms(ZERO, first, second);
    hide ToHex, FromHex, LoadPayload, Prefix;
    PrefixClash(net, KDecider, KStack, hex);
    PrefixClash(net, KDecider, KTx, hex);
    PrefixClash(net, KDecider, KKey, hex);
    PrefixClash(net, KDecider, KMerkle, hex);
    assert line[|Prefix(net, KDecider)|..] == hex;
    HexNoPrefix(net, KUnsigned, hex);
  }

  // ---------------------------------------------------------------- prefixes one behind the other

  /** When a prefix is tested for. */
  function Turn(kind: Kind): nat
  {
    match kind
    case KStack => 0
    case KTx => 1
    case KKey => 2
    case KMerkle => 3
    case KDecider => 4
    case KUnsigned => 5
  }

  /** A whole line is no payload of any kind. */
  lemma LineIsNoPayload(net: Network, c: Construct, kind: Kind)
    requires WellFormed(c)
    ensures LoadPayload(kind, FromHex(Line(net, c))).None?
  {
    PayloadLength(c);
    PrefixLengths(net, KindOf(c));
    PayloadSizes(kind, FromHex(Line(net, c)));
    hide Payload, LoadPayload, Prefix, FromHex, ToHex;
  }

  lemma PrefixLengths(net: Network, kind: Kind)
    ensures |Prefix(net, kind)| == match kind case KStack => 12 case KTx => 9 case KKey => 13
                                              case KMerkle => 13 case KUnsigned => 15 case KDecider => 12
  {
  }

  /** The line with another prefix in front after the tests up to `turn`. */
  function Nested(net: Network, outer: Kind, c: Construct, turn: nat): Loading
  {
    if turn <= Turn(outer) then Loading(Prefix(net, outer) + Line(net, c), [])
    else if Turn(outer) < Turn(KindOf(c)) < turn then Loading(ToHex(Payload(c)), [c])
    else Loading(Line(net, c), [])
  }

  lemma NestedTurn(net: Network, outer: Kind, c: Construct, kind: Kind)
    requires WellFormed(c)
    ensures Branch(net, kind, Nested(net, outer, c, Turn(kind))) == Nested(net, outer, c, Turn(kind) + 1)
  {
    var line, p := Line(net, c), Prefix(net, outer);
    hide Line, Payload, ToHex, FromHex, LoadPayload, Prefix;
    if kind == outer {
      LineIsNoPayload(net, c, kind);
      assert p <= p + line && (p + line)[|p|..] == line;
    } else if Turn(kind) < Turn(outer) {
      PrefixClash(net, outer, kind, line);
    } else {
      BranchAt(net, c, kind, Turn(outer) < Turn(KindOf(c)) < Turn(kind));
    }
  }

  /**
   A test that fires trims the line and lets the later tests look at the rest: a prefix in front of a whole line
   hides the line exactly if the line's own prefix has had its turn by then.
   */
  lemma NestedPrefix(net: Network, outer: Kind, c: Construct)
    requires WellFormed(c)
    ensures LoadLine(net, Prefix(net, outer) + Line(net, c)) == if Turn(outer) < Turn(KindOf(c)) then [c] else []
  {
    hide Branch, Line, Payload, ToHex, Prefix;
    NestedTurn(net, outer, c, KStack);
    NestedTurn(net, outer, c, KTx);
    NestedTurn(net, outer, c, KKey);
    NestedTurn(net, outer, c, KMerkle);
    NestedTurn(net, outer, c, KDecider);
    NestedTurn(net, outer, c, KUnsigned);
  }

  // ---------------------------------------------------------------- loading a text

  /** `strings.Split(text, "\n")`, with the characters of the current line collected so far. */
  function Split(text: string, line: string): seq<string>
  {
    if text == [] then [line]
    else if text[0] == '\n' then [line] + Split(text[1..], [])
    else Split(text[1..], line + [text[0]])
  }

  function LoadLines(net: Network, lines: seq<string>): seq<Construct>
  {
    if lines == [] then [] else
      var n := |lines| - 1;
      LoadLines(net, lines[..n]) + if lines[n] == "" then [] else LoadLine(net, lines[n])
  }

  ghost predicate OneLine(line: string)
  {
    forall i | 0 <= i < |line| :: line[i] != '\n'
  }

  /** The lines with newlines between them. */
  function Joined(lines: seq<string>): string
  {
    if lines == [] then ""
    else if |lines| == 1 then lines[0]
    else lines[0] + ("\n" + Joined(lines[1..]))
  }

  /** What stands between the newlines of the text, before the first and after the last. */
  ghost predicate LinesOf(text: string, lines: seq<string>)
  {
    lines != [] && Joined(lines) == text && forall i | 0 <= i < |lines| :: OneLine(lines[i])
  }

  lemma {:induction false} SplitJoins(text: string, line: string)
    requires OneLine(line)
    ensures LinesOf(line + text, Split(text, line))
    decreases |text|
  {
    if text == [] {
      assert line + text == line;
    } else if text[0] == '\n' {
      SplitJoins(text[1..], []);
      var rest := Split(text[1..], []);
      assert [] + text[1..] == text[1..] && text == "\n" + text[1..];
      assert ([line] + rest)[1..] == rest;
    } else {
      SplitJoins(text[1..], line + [text[0]]);
      assert line + [text[0]] + text[1..] == line + text;
    }
  }

  /** A text has one list of lines. */
  lemma {:induction false} SplitUnique(text: string, lines: seq<string>)
    requires LinesOf(text, lines)
    ensures lines == Split(text, [])
    decreases |lines|
  {
    var line := lines[0];
    if |lines| == 1 {
      SplitLast(line, []);
      assert [] + line == line && lines == [line];
    } else {
      var rest := lines[1..];
      SplitUnique(Joined(rest), rest);
      SplitLine(line, Joined(rest), []);
      assert [] + line == line && lines == [line] + rest;
    }
  }

  lemma {:induction false} SplitLast(line: string, start: string)
    requires OneLine(line)
    ensures Split(line, start) == [start + line]
    decreases |line|
  {
    if line == [] {
      assert start + line == start;
    } else {
      SplitLast(line[1..], start + [line[0]]);
      assert start + [line[0]] + line[1..] == start + line;
    }
  }

  /** `wallet_load`: the lines of the text, empty ones skipped; a line that fails to load does not stop the rest. */
  method Load(net: Network, text: string) returns (loaded: seq<Construct>)
    ensures loaded == LoadLines(net, Split(text, []))
    ensures LinesOf(text, Split(text, [])) && forall lines | LinesOf(text, lines) :: loaded == LoadLines(net, lines)
  {
    hide Split, LoadLine, LinesOf;
    var lines := Split(text, []);
    loaded := [];
    for i := 0 to |lines|
      invariant loaded == LoadLines(net, lines[..i])
    {
      assert lines[..i + 1][..i] == lines[..i];
      if lines[i] != "" {
        loaded := loaded + LoadLine(net, lines[i]);
      }
    }
    assert lines[..|lines|] == lines;
    NoLine();
    SplitJoins(text, []);
    assert [] + text == text;
    forall other | LinesOf(text, other) ensures other == lines {
      SplitUnique(text, other);
    }
  }

  lemma NoLine()
    ensures OneLine([])
  {
  }

  lemma {:induction false} SplitLine(line: string, rest: string, start: string)
    requires OneLine(line)
    ensures Split(line + ("\n" + rest), start) == [start + line] + Split(rest, [])
    decreases |line|
  {
    var text := line + ("\n" + rest);
    if line == [] {
      assert text == "\n" + rest && text[1..] == rest && start + line == start;
    } else {
      assert text[1..] == line[1..] + ("\n" + rest);
      SplitLine(line[1..], rest, start + [line[0]]);
      assert start + [line[0]] + line[1..] == start + line;
    }
  }

  lemma LineIsOneLine(net: Network, c: Construct)
    ensures OneLine(Line(net, c)) && Line(net, c) != ""
  {
    HexRoundTrip(Payload(c));
    PrefixIsOneLine(net, KindOf(c));
  }

  lemma PrefixIsOneLine(net: Network, kind: Kind)
    ensures OneLine(Prefix(net, kind)) && Prefix(net, kind) != ""
  {
  }

  lemma {:induction false} LoadLinesConcat(net: Network, a: seq<string>, b: seq<string>)
    ensures LoadLines(net, a + b) == LoadLines(net, a) + LoadLines(net, b)
  {
    hide LoadLine;
    if b == [] {
      assert a + b == a && LoadLines(net, a) + [] == LoadLines(net, a);
    } else {
      var n := |b| - 1;
      LoadLinesConcat(net, a, b[..n]);
      assert (a + b)[..|a + b| - 1] == a + b[..n];
      ConcatAssoc(LoadLines(net, a), LoadLines(net, b[..n]), if b[n] == "" then [] else LoadLine(net, b[n]));
    }
  }

  lemma LoadOneLine(net: Network, line: string)
    requires line != ""
    ensures LoadLines(net, [line]) == LoadLine(net, line)
  {
    hide LoadLine;
    assert [line][..0] == [];
    assert LoadLines(net, [line]) == [] + LoadLine(net, line);
  }

  function Lines(net: Network, cs: seq<Construct>): (r: seq<string>)
    ensures |r| == |cs|
  {
    seq(|cs|, i requires 0 <= i < |cs| => Line(net, cs[i]))
  }

  lemma LinesFirst(net: Network, cs: seq<Construct>)
    requires cs != []
    ensures Lines(net, cs) == [Line(net, cs[0])] + Lines(net, cs[1..])
  {
  }

  /** The lines of an exported text stand before those of whatever follows it. */
  lemma {:induction false} SplitText(net: Network, cs: seq<Construct>, tail: string)
    ensures Split(Text(net, cs) + tail, []) == Lines(net, cs) + Split(tail, [])
    decreases |cs|
  {
    hide Line, Split, Lines;
    if cs == [] {
      assert Text(net, cs) + tail == tail && Lines(net, cs) + Split(tail, []) == Split(tail, []);
    } else {
      var line, rest := Line(net, cs[0]), Text(net, cs[1..]);
      LineIsOneLine(net, cs[0]);
      ConcatAssoc(line, "\n" + rest, tail);
      ConcatAssoc("\n", rest, tail);
      SplitLine(line, rest + tail, []);
      assert [] + line == line;
      SplitText(net, cs[1..], tail);
      LinesFirst(net, cs);
      ConcatAssoc([line], Lines(net, cs[1..]), Split(tail, []));
    }
  }

  lemma {:induction false} LoadLinesOf(net: Network, cs: seq<Construct>)
    requires forall i | 0 <= i < |cs| :: WellFormed(cs[i])
    ensures LoadLines(net, Lines(net, cs)) == cs
    decreases |cs|
  {
    hide Line, LoadLine, WellFormed, Lines;
    if cs != [] {
      LinesFirst(net, cs);
      LineIsOneLine(net, cs[0]);
      LoadLinesConcat(net, [Line(net, cs[0])], Lines(net, cs[1..]));
      LoadOneLine(net, Line(net, cs[0]));
      LineRoundTrip(net, cs[0]);
      LoadLinesOf(net, cs[1..]);
      assert cs == [cs[0]] + cs[1..];
    }
  }

  /** Loading an exported text hands libcomb the same constructs in the same order. */
  lemma TextRoundTrip(net: Network, cs: seq<Construct>)
    requires forall i | 0 <= i < |cs| :: WellFormed(cs[i])
    ensures LoadLines(net, Split(Text(net, cs), [])) == cs
  {
    hide LoadLine, WellFormed, Split, LoadLines, Text;
    assert Text(net, cs) + "" == Text(net, cs);
    SplitText(net, cs, "");
    NoLine();
    SplitLast("", []);
    LoadLinesConcat(net, Lines(net, cs), [""]);
    LoadLinesOf(net, cs);
    LoadEmptyLine(net);
    assert [] + "" == "" && cs + [] == cs;
  }

  lemma LoadEmptyLine(net: Network)
    ensures LoadLines(net, [""]) == []
  {
    assert [""][..0] == [];
  }

  /** A last line without a newline loads like any other. */
  lemma UnterminatedRoundTrip(net: Network, cs: seq<Construct>, c: Construct)
    requires WellFormed(c) && forall i | 0 <= i < |cs| :: WellFormed(cs[i])
    ensures LoadLines(net, Split(Text(net, cs) + Line(net, c), [])) == cs + [c]
  {
    hide Line, LoadLine, WellFormed, Split, LoadLines, Text;
    LineIsOneLine(net, c);
    SplitText(net, cs, Line(net, c));
    SplitLast(Line(net, c), []);
    assert [] + Line(net, c) == Line(net, c);
    LoadLinesConcat(net, Lines(net, cs), [Line(net, c)]);
    LoadOneLine(net, Line(net, c));
    LineRoundTrip(net, c);
    LoadLinesOf(net, cs);
  }

  ghost predicate AllWellFormed(cs: seq<Construct>)
  {
    forall i | 0 <= i < |cs| :: WellFormed(cs[i])
  }

  /**
   Exporting any holdings and loading the text replays all of them: of each kind exactly the list held, in its
   order, and the kinds one after another.
   */
  method ExportThenLoad(net: Network, w: Holdings) returns (text: string, loaded: seq<Construct>)
    requires AllWellFormed(w.keys) && AllWellFormed(w.stacks) && AllWellFormed(w.transactions)
    requires AllWellFormed(w.deciders) && AllWellFormed(w.merkles) && AllWellFormed(w.unsigned)
    ensures text == Text(net, InOrder(w)) && loaded == InOrder(w)
    ensures OwnKinds(w) ==> Arranged(w, loaded)
  {
    hide OwnKinds, Arranged, Text, LoadLines, Split, LinesOf, InOrder;
    text := Export(net, w);
    loaded := Load(net, text);
    WellFormedInOrder(w);
    TextRoundTrip(net, InOrder(w));
  }

  lemma WellFormedInOrder(w: Holdings)
    requires AllWellFormed(w.keys) && AllWellFormed(w.stacks) && AllWellFormed(w.transactions)
    requires AllWellFormed(w.deciders) && AllWellFormed(w.merkles) && AllWellFormed(w.unsigned)
    ensures AllWellFormed(InOrder(w))
  {
    hide WellFormed;
  }
}
