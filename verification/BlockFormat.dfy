/**
 The wire format of a Bitcoin block, written as an encoder that knows nothing of the parser,
 and the proof that the parser inverts it on every well-formed block whatever bytes follow.
 */
module BlockFormat {
  import opened Wrappers
  import opened Bytes
  import opened Reversal
  import opened ChainState
  import opened Parser

  datatype Input = Input(outpoint: Bytes, script: Bytes, sequence: Bytes)

  datatype Output = Output(amount: Bytes, script: Bytes)

  /** `segwit` carries one witness stack for each input. */
  datatype Tx = Tx(version: Bytes, segwit: bool, ins: seq<Input>, outs: seq<Output>, stacks: seq<seq<Bytes>>, locktime: Bytes)

  datatype RawBlock = RawBlock(version: Bytes, previous: Hash, merkleTimeBitsNonce: Bytes, txs: seq<Tx>)

  // ---------------------------------------------------------------- encoding

  function CompactSize(n: nat): Bytes
  {
    if n < 0xfd then [n]
    else if n < 0x1_0000 then [0xfd] + LittleEndian(n, 2)
    else if n < TWO_32 then [0xfe] + LittleEndian(n, 4)
    else [0xff] + LittleEndian(n, 8)
  }

  function EncodeInput(i: Input): Bytes
  {
    i.outpoint + (CompactSize(|i.script|) + (i.script + i.sequence))
  }

  function EncodeInputs(ins: seq<Input>): Bytes
  {
    if ins == [] then [] else EncodeInput(ins[0]) + EncodeInputs(ins[1..])
  }

  function EncodeOutput(o: Output): Bytes
  {
    o.amount + (CompactSize(|o.script|) + o.script)
  }

  function EncodeOutputs(outs: seq<Output>): Bytes
  {
    if outs == [] then [] else EncodeOutput(outs[0]) + EncodeOutputs(outs[1..])
  }

  function EncodeItem(item: Bytes): Bytes
  {
    CompactSize(|item|) + item
  }

  function EncodeItems(items: seq<Bytes>): Bytes
  {
    if items == [] then [] else EncodeItem(items[0]) + EncodeItems(items[1..])
  }

  function EncodeStack(stack: seq<Bytes>): Bytes
  {
    CompactSize(|stack|) + EncodeItems(stack)
  }

  function EncodeStacks(stacks: seq<seq<Bytes>>): Bytes
  {
    if stacks == [] then [] else EncodeStack(stacks[0]) + EncodeStacks(stacks[1..])
  }

  /** Marker 0 and flag 1 before the inputs announce the witness stacks after the outputs. */
  function EncodeTx(tx: Tx): Bytes
  {
    tx.version + ((if tx.segwit then [0, 1] else []) + (CompactSize(|tx.ins|) + (EncodeInputs(tx.ins)
      + (CompactSize(|tx.outs|) + (EncodeOutputs(tx.outs)
      + ((if tx.segwit then EncodeStacks(tx.stacks) else []) + tx.locktime))))))
  }

  function EncodeTxs(txs: seq<Tx>): Bytes
  {
    if txs == [] then [] else EncodeTx(txs[0]) + EncodeTxs(txs[1..])
  }

  function Header(b: RawBlock): Bytes
  {
    b.version + (b.previous + b.merkleTimeBitsNonce)
  }

  function EncodeBlock(b: RawBlock): Bytes
  {
    Header(b) + (CompactSize(|b.txs|) + EncodeTxs(b.txs))
  }

  // ---------------------------------------------------------------- well-formed blocks

  ghost predicate GoodInput(i: Input)
  {
    |i.outpoint| == 36 && |i.sequence| == 4 && |i.script| < TWO_63
  }

  ghost predicate GoodOutput(o: Output)
  {
    |o.amount| == 8 && |o.script| < TWO_63
  }

  ghost predicate GoodStack(stack: seq<Bytes>)
  {
    |stack| < TWO_63 && forall k | 0 <= k < |stack| :: |stack[k]| < TWO_63
  }

  ghost predicate GoodTx(tx: Tx)
  {
    && |tx.version| == 4 && |tx.locktime| == 4
    && 0 < |tx.ins| < TWO_63 && |tx.outs| < TWO_63
    && (forall i | 0 <= i < |tx.ins| :: GoodInput(tx.ins[i]))
    && (forall i | 0 <= i < |tx.outs| :: GoodOutput(tx.outs[i]))
    && (tx.segwit ==> |tx.stacks| == |tx.ins| && forall i | 0 <= i < |tx.stacks| :: GoodStack(tx.stacks[i]))
  }

  ghost predicate GoodBlock(b: RawBlock)
  {
    && |b.version| == 4 && |b.merkleTimeBitsNonce| == 44 && |b.txs| < TWO_63
    && forall i | 0 <= i < |b.txs| :: GoodTx(b.txs[i])
  }

  // ---------------------------------------------------------------- what the block commits to

  /** A version-0 witness program of 32 bytes: a push of zero and a push of 32 bytes (section "Witness program" of BIP 141). */
  predicate IsProgram(script: Bytes)
  {
    |script| == 34 && script[..2] == [0, 32]
  }

  function Programs(outs: seq<Output>): seq<Hash>
  {
    if outs == [] then []
    else (if IsProgram(outs[0].script) then [outs[0].script[2..]] else []) + Programs(outs[1..])
  }

  function AllPrograms(txs: seq<Tx>): seq<Hash>
  {
    if txs == [] then [] else Programs(txs[0].outs) + AllPrograms(txs[1..])
  }

  lemma {:induction false} ProgramsConcat(a: seq<Output>, b: seq<Output>)
    ensures Programs(a + b) == Programs(a) + Programs(b)
  {
    if a == [] {
      assert a + b == b;
    } else {
      assert (a + b)[1..] == a[1..] + b;
      ProgramsConcat(a[1..], b);
      ConcatAssoc(if IsProgram(a[0].script) then [a[0].script[2..]] else [], Programs(a[1..]), Programs(b));
    }
  }

  /** Each output of the block adds its program, if it has one, behind those of the outputs before it. */
  lemma ProgramsSnoc(outs: seq<Output>, o: Output)
    ensures |o.script| == 34 && o.script[0] == 0 && o.script[1] == 32 ==> Programs(outs + [o]) == Programs(outs) + [o.script[2..34]]
    ensures !(|o.script| == 34 && o.script[0] == 0 && o.script[1] == 32) ==> Programs(outs + [o]) == Programs(outs)
  {
    ProgramsConcat(outs, [o]);
    if |o.script| >= 2 {
      assert o.script[..2] == [o.script[0], o.script[1]];
    }
    if |o.script| == 34 {
      assert o.script[2..] == o.script[2..34];
    }
  }

  function AllOutputs(txs: seq<Tx>): seq<Output>
  {
    if txs == [] then [] else AllOutputs(txs[..|txs| - 1]) + txs[|txs| - 1].outs
  }

  lemma {:induction false} AllProgramsConcat(a: seq<Tx>, b: seq<Tx>)
    ensures AllPrograms(a + b) == AllPrograms(a) + AllPrograms(b)
  {
    hide Programs;
    if a == [] {
      assert a + b == b;
    } else {
      assert (a + b)[1..] == a[1..] + b;
      AllProgramsConcat(a[1..], b);
      ConcatAssoc(Programs(a[0].outs), AllPrograms(a[1..]), AllPrograms(b));
    }
  }

  /** The programs of a block are those of all its outputs, transaction after transaction. */
  lemma {:induction false} AllProgramsOfOutputs(txs: seq<Tx>)
    ensures AllPrograms(txs) == Programs(AllOutputs(txs))
  {
    if txs != [] {
      var n := |txs| - 1;
      AllProgramsOfOutputs(txs[..n]);
      AllProgramsConcat(txs[..n], [txs[n]]);
      assert txs == txs[..n] + [txs[n]];
      assert AllPrograms([txs[n]]) == Programs(txs[n].outs) + [];
      ProgramsConcat(AllOutputs(txs[..n]), txs[n].outs);
    }
  }

  // ---------------------------------------------------------------- the parser undoes the encoder

  lemma DropPrefix(a: Bytes, b: Bytes)
    ensures Drop(a + b, |a|) == Some(b)
  {
    assert (a + b)[|a|..] == b;
  }

  lemma VarintRoundTrip(n: nat, tail: Bytes)
    requires n < TWO_64
    ensures ParseVarint(CompactSize(n) + tail) == Some((n, |CompactSize(n)|))
    ensures Drop(CompactSize(n) + tail, |CompactSize(n)|) == Some(tail)
  {
    DropPrefix(CompactSize(n), tail);
    var d := CompactSize(n) + tail;
    Pow256Values();
    if n < 0xfd {
    } else if n < 0x1_0000 {
      LittleEndianRoundTrip(n, 2);
      assert d[1..3] == LittleEndian(n, 2);
    } else if n < TWO_32 {
      LittleEndianRoundTrip(n, 4);
      assert d[1..5] == LittleEndian(n, 4);
    } else {
      LittleEndianRoundTrip(n, 8);
      assert d[1..9] == LittleEndian(n, 8);
    }
  }

  /** A size and the bytes it announces are skipped together. */
  lemma SizedRoundTrip(n: nat, body: Bytes, tail: Bytes)
    requires n < TWO_63 && n <= |body| <= n + 4
    ensures ParseVarint(CompactSize(n) + (body + tail)) == Some((n, |CompactSize(n)|))
    ensures Drop(CompactSize(n) + (body + tail), (|CompactSize(n)| + |body|) % TWO_64) == Some(tail)
  {
    VarintRoundTrip(n, body + tail);
    ConcatAssoc(CompactSize(n), body, tail);
    DropPrefix(CompactSize(n) + body, tail);
    assert |CompactSize(n)| <= 9;
  }

  lemma InputRoundTrip(i: Input, tail: Bytes)
    requires GoodInput(i)
    ensures SkipInput(EncodeInput(i) + tail) == Some(tail)
  {
    var cs, body := CompactSize(|i.script|), i.script + i.sequence;
    assert EncodeInput(i) + tail == i.outpoint + (cs + (body + tail));
    DropPrefix(i.outpoint, cs + (body + tail));
    SizedRoundTrip(|i.script|, body, tail);
  }

  lemma {:induction false} InputsRoundTrip(ins: seq<Input>, tail: Bytes)
    requires forall k | 0 <= k < |ins| :: GoodInput(ins[k])
    ensures SkipInputs(EncodeInputs(ins) + tail, |ins|) == Some(tail)
  {
    if ins == [] {
      assert EncodeInputs(ins) + tail == tail;
    } else {
      ConcatAssoc(EncodeInput(ins[0]), EncodeInputs(ins[1..]), tail);
      InputRoundTrip(ins[0], EncodeInputs(ins[1..]) + tail);
      InputsRoundTrip(ins[1..], tail);
    }
  }

  lemma OutputRoundTrip(o: Output, tail: Bytes)
    requires GoodOutput(o)
    ensures ReadOutput(EncodeOutput(o) + tail) == Some((if IsProgram(o.script) then [o.script[2..]] else [], tail))
  {
    var cs := CompactSize(|o.script|);
    assert EncodeOutput(o) + tail == o.amount + (cs + (o.script + tail));
    DropPrefix(o.amount, cs + (o.script + tail));
    VarintRoundTrip(|o.script|, o.script + tail);
    DropPrefix(o.script, tail);
    if |o.script| == 34 {
      assert (o.script + tail)[2..34] == o.script[2..];
      assert o.script[..2] == [o.script[0], o.script[1]];
    }
  }

  lemma {:induction false} OutputsRoundTrip(outs: seq<Output>, tail: Bytes)
    requires forall k | 0 <= k < |outs| :: GoodOutput(outs[k])
    ensures ReadOutputs(EncodeOutputs(outs) + tail, |outs|) == Some((Programs(outs), tail))
  {
    if outs == [] {
      assert EncodeOutputs(outs) + tail == tail;
    } else {
      ConcatAssoc(EncodeOutput(outs[0]), EncodeOutputs(outs[1..]), tail);
      OutputRoundTrip(outs[0], EncodeOutputs(outs[1..]) + tail);
      OutputsRoundTrip(outs[1..], tail);
    }
  }

  lemma ItemRoundTrip(item: Bytes, tail: Bytes)
    requires |item| < TWO_63
    ensures SkipItem(EncodeItem(item) + tail) == Some(tail)
  {
    ConcatAssoc(CompactSize(|item|), item, tail);
    SizedRoundTrip(|item|, item, tail);
  }

  lemma {:induction false} ItemsRoundTrip(items: seq<Bytes>, tail: Bytes)
    requires forall k | 0 <= k < |items| :: |items[k]| < TWO_63
    ensures SkipItems(EncodeItems(items) + tail, |items|) == Some(tail)
  {
    hide EncodeItem, SkipItem;
    if items == [] {
      assert EncodeItems(items) + tail == tail;
    } else {
      ConcatAssoc(EncodeItem(items[0]), EncodeItems(items[1..]), tail);
      ItemRoundTrip(items[0], EncodeItems(items[1..]) + tail);
      ItemsRoundTrip(items[1..], tail);
    }
  }

  lemma StackRoundTrip(stack: seq<Bytes>, tail: Bytes)
    requires GoodStack(stack)
    ensures SkipStack(EncodeStack(stack) + tail) == Some(tail)
  {
    ConcatAssoc(CompactSize(|stack|), EncodeItems(stack), tail);
    VarintRoundTrip(|stack|, EncodeItems(stack) + tail);
    ItemsRoundTrip(stack, tail);
  }

  lemma {:induction false} StacksRoundTrip(stacks: seq<seq<Bytes>>, tail: Bytes)
    requires forall k | 0 <= k < |stacks| :: GoodStack(stacks[k])
    ensures SkipStacks(EncodeStacks(stacks) + tail, |stacks|) == Some(tail)
  {
    hide EncodeStack, SkipStack, GoodStack;
    if stacks == [] {
      assert EncodeStacks(stacks) + tail == tail;
    } else {
      ConcatAssoc(EncodeStack(stacks[0]), EncodeStacks(stacks[1..]), tail);
      StackRoundTrip(stacks[0], EncodeStacks(stacks[1..]) + tail);
      StacksRoundTrip(stacks[1..], tail);
    }
  }

  /** A declared script size near 2^64 makes the sum wrap: the parser skips backwards in effect, and goes on. */
  lemma WrappedSkip(outpoint: Bytes, n: nat, tail: Bytes)
    requires |outpoint| == 36 && n < TWO_64 <= |CompactSize(n)| + n + 4
    ensures SkipInput(outpoint + (CompactSize(n) + tail)) == Drop(CompactSize(n) + tail, |CompactSize(n)| + n + 4 - TWO_64)
  {
    DropPrefix(outpoint, CompactSize(n) + tail);
    VarintRoundTrip(n, tail);
  }

  /** A declared count of 2^63 or more is a negative loop bound, so nothing is read. */
  lemma NegativeCount(n: nat, tail: Bytes)
    requires TWO_63 <= n < TWO_64
    ensures SkipStack(CompactSize(n) + tail) == Some(tail)
  {
    VarintRoundTrip(n, tail);
  }

  /** With at least one input, the count byte is told apart from the segwit marker. */
  lemma InputCountRoundTrip(n: nat, segwit: bool, tail: Bytes)
    requires 0 < n < TWO_63
    ensures ReadInputCount((if segwit then [0, 1] else []) + (CompactSize(n) + tail)) == Some((n, segwit, tail))
  {
    VarintRoundTrip(n, tail);
    if segwit {
      var marker: Bytes := [0, 1];
      DropPrefix(marker, CompactSize(n) + tail);
    } else {
      assert [] + (CompactSize(n) + tail) == CompactSize(n) + tail;
    }
  }

  lemma TxSplit(tx: Tx, tail: Bytes)
    ensures EncodeTx(tx) + tail
         == tx.version + ((if tx.segwit then [0, 1] else []) + (CompactSize(|tx.ins|) + (EncodeInputs(tx.ins)
            + (CompactSize(|tx.outs|) + (EncodeOutputs(tx.outs)
            + ((if tx.segwit then EncodeStacks(tx.stacks) else []) + (tx.locktime + tail)))))))
  {
    var t0 := (if tx.segwit then EncodeStacks(tx.stacks) else []) + tx.locktime;
    ConcatAssoc(if tx.segwit then EncodeStacks(tx.stacks) else [], tx.locktime, tail);
    var t1 := EncodeOutputs(tx.outs) + t0;
    ConcatAssoc(EncodeOutputs(tx.outs), t0, tail);
    var t2 := CompactSize(|tx.outs|) + t1;
    ConcatAssoc(CompactSize(|tx.outs|), t1, tail);
    var t3 := EncodeInputs(tx.ins) + t2;
    ConcatAssoc(EncodeInputs(tx.ins), t2, tail);
    var t4 := CompactSize(|tx.ins|) + t3;
    ConcatAssoc(CompactSize(|tx.ins|), t3, tail);
    var t5 := (if tx.segwit then [0, 1] else []) + t4;
    ConcatAssoc(if tx.segwit then [0, 1] else [], t4, tail);
    ConcatAssoc(tx.version, t5, tail);
  }

  lemma TxRoundTrip(tx: Tx, tail: Bytes)
    requires GoodTx(tx)
    ensures ReadTx(EncodeTx(tx) + tail) == Some((Programs(tx.outs), tail))
  {
    var e := tx.locktime + tail;
    var w := (if tx.segwit then EncodeStacks(tx.stacks) else []) + e;
    var o := EncodeOutputs(tx.outs) + w;
    var i := EncodeInputs(tx.ins) + (CompactSize(|tx.outs|) + o);
    var c := (if tx.segwit then [0, 1] else []) + (CompactSize(|tx.ins|) + i);
    TxSplit(tx, tail);
    DropPrefix(tx.version, c);
    InputCountRoundTrip(|tx.ins|, tx.segwit, i);
    InputsRoundTrip(tx.ins, CompactSize(|tx.outs|) + o);
    VarintRoundTrip(|tx.outs|, o);
    OutputsRoundTrip(tx.outs, w);
    if tx.segwit {
      StacksRoundTrip(tx.stacks, e);
    } else {
      assert w == e;
    }
    DropPrefix(tx.locktime, tail);
  }

  lemma {:induction false} TxsRoundTrip(txs: seq<Tx>, tail: Bytes)
    requires forall k | 0 <= k < |txs| :: GoodTx(txs[k])
    ensures ReadTxs(EncodeTxs(txs) + tail, |txs|) == Some((AllPrograms(txs), tail))
  {
    if txs == [] {
      assert EncodeTxs(txs) + tail == tail;
    } else {
      ConcatAssoc(EncodeTx(txs[0]), EncodeTxs(txs[1..]), tail);
      TxRoundTrip(txs[0], EncodeTxs(txs[1..]) + tail);
      TxsRoundTrip(txs[1..], tail);
    }
  }

  /**
   On every well-formed block followed by any bytes the parser does not panic, stops exactly at
   those bytes, and returns the reversed double digest of the header, the reversed previous
   hash and all version-0 32-byte witness programs in output order.
   */
  lemma BlockRoundTrip(digest: Bytes -> Hash, b: RawBlock, tail: Bytes)
    requires GoodBlock(b)
    ensures ParseBlock(digest, EncodeBlock(b) + tail)
         == Some((BlockData(Flip(digest(digest(Header(b)))), Flip(b.previous), AllPrograms(b.txs)), tail))
  {
    var cs, txs := CompactSize(|b.txs|), EncodeTxs(b.txs);
    var data := EncodeBlock(b) + tail;
    assert data == Header(b) + (cs + (txs + tail)) by {
      ConcatAssoc(Header(b), cs + txs, tail);
      ConcatAssoc(cs, txs, tail);
    }
    assert |Header(b)| == 80 && data[0..80] == Header(b) && data[80..] == cs + (txs + tail);
    assert data[4..36] == b.previous;
    VarintRoundTrip(|b.txs|, txs + tail);
    TxsRoundTrip(b.txs, tail);
  }
}
