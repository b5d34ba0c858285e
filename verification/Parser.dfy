/**
 The raw Bitcoin block parser. A slice out of bounds is a Go panic, modelled as `None`. The
 parser is proved total and correct on every well-formed block, legacy and segwit transactions
 mixed (section "Serialization" of BIP 144), against an independent encoder.
 */
module Parser {
  import opened Wrappers
  import opened Bytes
  import opened Reversal
  import opened ChainState

  // ---------------------------------------------------------------- reading

  /** `data[n:]`. */
  function Drop(data: Bytes, n: nat): Option<Bytes>
  {
    if n <= |data| then Some(data[n..]) else None
  }

  /** Times a Go loop `for i := 0; i < int(n); i++` runs: a count of 2^63 or more turns negative. */
  function Times(n: nat): nat
  {
    if n < TWO_63 then n else 0
  }

  /** `btc_parse_varint`: value and number of bytes read. */
  function ParseVarint(data: Bytes): Option<(nat, nat)>
  {
    if |data| < 1 then None
    else if data[0] == 0xfd then
      if |data| < 3 then None else Some((FromLittleEndian(data[1..3]), 3))
    else if data[0] == 0xfe then
      if |data| < 5 then None else Some((FromLittleEndian(data[1..5]), 5))
    else if data[0] == 0xff then
      if |data| < 9 then None else Some((FromLittleEndian(data[1..9]), 9))
    else Some((data[0], 1))
  }

  /** The forms of a compact size, byte by byte. */
  lemma VarintBytes(d: Bytes)
    requires d != []
    ensures d[0] < 0xfd ==> ParseVarint(d) == Some((d[0], 1))
    ensures d[0] == 0xfd ==> ParseVarint(d) == if |d| < 3 then None else Some((d[1] + 0x100 * (d[2] as int), 3))
    ensures d[0] == 0xfe ==> ParseVarint(d) == if |d| < 5 then None else
              Some((d[1] + 0x100 * (d[2] as int) + 0x1_0000 * (d[3] as int) + 0x100_0000 * (d[4] as int), 5))
    ensures d[0] == 0xff ==> ParseVarint(d) == if |d| < 9 then None else
              Some((d[1] + 0x100 * (d[2] as int) + 0x1_0000 * (d[3] as int) + 0x100_0000 * (d[4] as int)
                    + 0x1_0000_0000 * (d[5] as int) + 0x100_0000_0000 * (d[6] as int)
                    + 0x1_0000_0000_0000 * (d[7] as int) + 0x100_0000_0000_0000 * (d[8] as int), 9))
  {
    hide FromLittleEndian;
    if d[0] == 0xfd && |d| >= 3 {
      LittleEndianPair(d[1..3]);
    } else if d[0] == 0xfe && |d| >= 5 {
      LittleEndianValues(d[1..5]);
    } else if d[0] == 0xff && |d| >= 9 {
      LittleEndianValues(d[1..9]);
    }
  }

  /** Outpoint, script with its size, sequence. The skipped length is a wrapping uint64 sum. */
  function SkipInput(data: Bytes): Option<Bytes>
  {
    var d :- Drop(data, 36);
    var v :- ParseVarint(d);
    Drop(d, (v.1 + v.0 + 4) % TWO_64)
  }

  function SkipInputs(data: Bytes, n: nat): Option<Bytes>
    decreases n
  {
    if n == 0 then Some(data) else
      var d :- SkipInput(data);
      SkipInputs(d, n - 1)
  }

  /** Value, script with its size. A 34-byte script that starts with 0, 32 yields its last 32 bytes. */
  function ReadOutput(data: Bytes): Option<(seq<Hash>, Bytes)>
  {
    var d :- Drop(data, 8);
    var v :- ParseVarint(d);
    var script :- Drop(d, v.1);
    var rest :- Drop(script, v.0);
    Some((if v.0 == 34 && script[0] == 0 && script[1] == 32 then [script[2..34]] else [], rest))
  }

  function ReadOutputs(data: Bytes, n: nat): Option<(seq<Hash>, Bytes)>
    decreases n
  {
    if n == 0 then Some(([], data)) else
      var first :- ReadOutput(data);
      var more :- ReadOutputs(first.1, n - 1);
      Some((first.0 + more.0, more.1))
  }

  function SkipItem(data: Bytes): Option<Bytes>
  {
    var v :- ParseVarint(data);
    Drop(data, (v.1 + v.0) % TWO_64)
  }

  function SkipItems(data: Bytes, n: nat): Option<Bytes>
    decreases n
  {
    if n == 0 then Some(data) else
      var d :- SkipItem(data);
      SkipItems(d, n - 1)
  }

  function SkipStack(data: Bytes): Option<Bytes>
  {
    var v :- ParseVarint(data);
    var d :- Drop(data, v.1);
    SkipItems(d, Times(v.0))
  }

  function SkipStacks(data: Bytes, n: nat): Option<Bytes>
    decreases n
  {
    if n == 0 then Some(data) else
      var d :- SkipStack(data);
      SkipStacks(d, n - 1)
  }

  /** Input count and whether the segwit marker stood before it. */
  function ReadInputCount(data: Bytes): Option<(nat, bool, Bytes)>
  {
    var v :- ParseVarint(data);
    if v.0 == 0 then
      var d :- Drop(data, 2);
      var w :- ParseVarint(d);
      var e :- Drop(d, w.1);
      Some((w.0, true, e))
    else
      var e :- Drop(data, v.1);
      Some((v.0, false, e))
  }

  function ReadTx(data: Bytes): Option<(seq<Hash>, Bytes)>
  {
    var d :- Drop(data, 4);
    var ins :- ReadInputCount(d);
    var afterIns :- SkipInputs(ins.2, Times(ins.0));
    var outCount :- ParseVarint(afterIns);
    var outs :- Drop(afterIns, outCount.1);
    var read :- ReadOutputs(outs, Times(outCount.0));
    var afterStacks :- if ins.1 then SkipStacks(read.1, Times(ins.0)) else Some(read.1);
    var rest :- Drop(afterStacks, 4);
    Some((read.0, rest))
  }

  function ReadTxs(data: Bytes, n: nat): Option<(seq<Hash>, Bytes)>
    decreases n
  {
    if n == 0 then Some(([], data)) else
      var first :- ReadTx(data);
      var more :- ReadTxs(first.1, n - 1);
      Some((first.0 + more.0, more.1))
  }

  /** `btc_parse_block`: the block and what is left of the data. */
  function ParseBlock(digest: Bytes -> Hash, data: Bytes): Option<(BlockData, Bytes)>
  {
    if |data| < 80 then None else
      var v :- ParseVarint(data[80..]);
      var d :- Drop(data[80..], v.1);
      var txs :- ReadTxs(d, Times(v.0));
      Some((BlockData(Flip(digest(digest(data[0..80]))), Flip(data[4..36]), txs.0), txs.1))
  }

  // ---------------------------------------------------------------- the loops

  /** The input loop. */
  method InputLoop(data: Bytes, n: nat) returns (r: Option<Bytes>)
    ensures r == SkipInputs(data, n)
  {
    var d := data;
    for i := 0 to n
      invariant SkipInputs(data, n) == SkipInputs(d, n - i)
    {
      if |d| < 36 {
        return None;
      }
      d := d[36..];
      var v := ParseVarint(d);
      if v.None? {
        return None;
      }
      var size := (v.value.1 + v.value.0 + 4) % TWO_64;
      if |d| < size {
        return None;
      }
      d := d[size..];
    }
    return Some(d);
  }

  /** What is still to be read, put behind what has been read. */
  ghost function Behind(found: seq<Hash>, r: Option<(seq<Hash>, Bytes)>): Option<(seq<Hash>, Bytes)>
  {
    if r.None? then None else Some((found + r.value.0, r.value.1))
  }

  lemma BehindStep(found: seq<Hash>, commits: seq<Hash>, r: Option<(seq<Hash>, Bytes)>)
    ensures Behind(found, Behind(commits, r)) == Behind(found + commits, r)
  {
    if r.Some? {
      ConcatAssoc(found, commits, r.value.0);
    }
  }

  lemma BehindEnds(found: seq<Hash>, d: Bytes, r: Option<(seq<Hash>, Bytes)>)
    ensures Behind(found, Some(([], d))) == Some((found, d)) && Behind([], r) == r
  {
    assert found + [] == found;
    if r.Some? { assert [] + r.value.0 == r.value.0; }
  }

  /** The output loop. */
  method OutputLoop(data: Bytes, n: nat) returns (r: Option<(seq<Hash>, Bytes)>)
    ensures r == ReadOutputs(data, n)
  {
    hide ParseVarint, FromLittleEndian;
    var d, commits: seq<Hash> := data, [];
    BehindEnds([], [], ReadOutputs(data, n));
    for i := 0 to n
      invariant ReadOutputs(data, n) == Behind(commits, ReadOutputs(d, n - i))
    {
      ghost var before := d;
      if |d| < 8 {
        return None;
      }
      d := d[8..];
      var v := ParseVarint(d);
      if v.None? {
        return None;
      }
      var size, adv := v.value.0, v.value.1;
      if |d| < adv {
        return None;
      }
      d := d[adv..];
      if |d| < size {
        return None;
      }
      var found: seq<Hash> := [];
      if size == 34 && d[0] == 0 && d[1] == 32 {
        found := [d[2..34]];
      }
      d := d[size..];
      assert ReadOutput(before) == Some((found, d));
      BehindStep(commits, found, ReadOutputs(d, n - i - 1));
      commits := commits + found;
    }
    BehindEnds(commits, d, None);
    return Some((commits, d));
  }

  /** The inner witness loop. */
  method ItemLoop(data: Bytes, n: nat) returns (r: Option<Bytes>)
    ensures r == SkipItems(data, n)
  {
    hide ParseVarint, FromLittleEndian;
    var d := data;
    for w := 0 to n
      invariant SkipItems(data, n) == SkipItems(d, n - w)
    {
      var v := ParseVarint(d);
      if v.None? {
        return None;
      }
      var size := (v.value.1 + v.value.0) % TWO_64;
      if |d| < size {
        return None;
      }
      d := d[size..];
    }
    return Some(d);
  }

  /** The outer witness loop. */
  method WitnessLoop(data: Bytes, n: nat) returns (r: Option<Bytes>)
    ensures r == SkipStacks(data, n)
  {
    var d := data;
    for i := 0 to n
      invariant SkipStacks(data, n) == SkipStacks(d, n - i)
    {
      var v := ParseVarint(d);
      if v.None? || |d| < v.value.1 {
        return None;
      }
      var items := ItemLoop(d[v.value.1..], Times(v.value.0));
      if items.None? {
        return None;
      }
      assert SkipStack(d) == items;
      d := items.value;
    }
    return Some(d);
  }

  /** The transaction loop. */
  method TxLoop(data: Bytes, n: nat) returns (r: Option<(seq<Hash>, Bytes)>)
    ensures r == ReadTxs(data, n)
  {
    var d, commits: seq<Hash> := data, [];
    BehindEnds([], [], ReadTxs(data, n));
    for t := 0 to n
      invariant ReadTxs(data, n) == Behind(commits, ReadTxs(d, n - t))
    {
      var tx := ParseTx(d);
      if tx.None? {
        return None;
      }
      BehindStep(commits, tx.value.0, ReadTxs(tx.value.1, n - t - 1));
      commits, d := commits + tx.value.0, tx.value.1;
    }
    BehindEnds(commits, d, None);
    return Some((commits, d));
  }

  method ParseTx(data: Bytes) returns (r: Option<(seq<Hash>, Bytes)>)
    ensures r == ReadTx(data)
  {
    if |data| < 4 {
      return None;
    }
    var ins := ReadInputCount(data[4..]);
    if ins.None? {
      return None;
    }
    var inCount, segwit := ins.value.0, ins.value.1;
    var afterIns := InputLoop(ins.value.2, Times(inCount));
    if afterIns.None? {
      return None;
    }
    var outCount := ParseVarint(afterIns.value);
    if outCount.None? || |afterIns.value| < outCount.value.1 {
      return None;
    }
    var outs := OutputLoop(afterIns.value[outCount.value.1..], Times(outCount.value.0));
    if outs.None? {
      return None;
    }
    var d := Some(outs.value.1);
    if segwit {
      d := WitnessLoop(outs.value.1, Times(inCount));
    }
    if d.None? || |d.value| < 4 {
      return None;
    }
    return Some((outs.value.0, d.value[4..]));
  }

  /** `btc_parse_block` as the program runs it. */
  method Parse(digest: Bytes -> Hash, data: Bytes) returns (r: Option<(BlockData, Bytes)>)
    ensures r == ParseBlock(digest, data)
  {
    if |data| < 80 {
      return None;
    }
    var hash := digest(digest(data[0..80]));
    var d := data[4..];
    var previous: Hash := d[0..32];
    assert previous == data[4..36];
    d := d[32..];
    d := d[44..];
    assert d == data[80..];
    var v := ParseVarint(d);
    if v.None? || |d| < v.value.1 {
      return None;
    }
    var txs := TxLoop(d[v.value.1..], Times(v.value.0));
    if txs.None? {
      return None;
    }
    hash := Reverse(hash);
    previous := Reverse(previous);
    return Some((BlockData(hash, previous, txs.value.0), txs.value.1));
  }
}
