/**
 The framing loop over a raw block file: magic, size, block, until the magic no longer stands
 there.
 */
module BlockFile {
  import opened Wrappers
  import opened Bytes
  import opened Reversal
  import opened ChainState
  import opened Parser
  import opened BlockFormat
  import opened Trace

  /**
   The loop of `direct_parse_block_file` over what is left of the reused buffer, of which the file
   fills the first `left` bytes. The slices of the loop may reach past the file into what an earlier file left
   in the buffer; only past the buffer itself they panic.
   */
  function ParseFrames(digest: Bytes -> Hash, magic: nat, buffer: Bytes, left: int, blocks: RawData): Option<RawData>
    decreases |buffer|
  {
    if left <= 0 then Some(blocks)
    else if |buffer| < 4 then None
    else if FromLittleEndian(buffer[0..4]) != magic then Some(blocks)
    else if |buffer| < 8 then None
    else
      var size := FromLittleEndian(buffer[4..8]);
      if |buffer| < 8 + size then None
      else
        var parsed :- ParseBlock(digest, buffer[8..8 + size]);
        ParseFrames(digest, magic, buffer[8 + size..], left - 8 - size, blocks[parsed.0.hash := parsed.0])
  }

  lemma SliceOfDrop(data: Bytes, p: nat, i: nat, j: nat)
    requires i <= j && p + j <= |data|
    ensures data[p..][i..j] == data[p + i..p + j]
  {
  }

  /** `direct_parse_block_file` once the file has been read into the front of the buffer. */
  method ParseBlockFile(digest: Bytes -> Hash, magic: nat, buffer: Bytes, length: nat, blocks: RawData)
    returns (r: Option<RawData>)
    requires length <= |buffer|
    ensures r == ParseFrames(digest, magic, buffer, length, blocks)
  {
    hide ParseBlock, FromLittleEndian;
    var p: nat := 0;
    var found: RawData := blocks;
    assert buffer[0..] == buffer;
    while true
      invariant p <= |buffer|
      invariant ParseFrames(digest, magic, buffer[p..], length - p, found) == ParseFrames(digest, magic, buffer, length, blocks)
      decreases |buffer| - p
    {
      ghost var rest := buffer[p..];
      if p >= length {
        return Some(found);
      }
      if |buffer| < p + 4 {
        return None;
      }
      SliceOfDrop(buffer, p, 0, 4);
      if FromLittleEndian(buffer[p..p + 4]) != magic {
        return Some(found);
      }
      ghost var start := p;
      p := p + 4;
      if |buffer| < p + 4 {
        return None;
      }
      SliceOfDrop(buffer, start, 4, 8);
      var size := FromLittleEndian(buffer[p..p + 4]);
      p := p + 4;
      if |buffer| < p + size {
        return None;
      }
      SliceOfDrop(buffer, start, 8, 8 + size);
      var parsed := Parse(digest, buffer[p..p + size]);
      if parsed.None? {
        return None;
      }
      found := found[parsed.value.0.hash := parsed.value.0];
      p := p + size;
      assert rest[8 + size..] == buffer[p..];
    }
  }

  // ---------------------------------------------------------------- files of whole blocks

  /** The block a well-formed raw block stands for. */
  function BlockOf(digest: Bytes -> Hash, b: RawBlock): BlockData
  {
    BlockData(Flip(digest(digest(Header(b)))), Flip(b.previous), AllPrograms(b.txs))
  }

  function EncodeFrames(magic: nat, bs: seq<RawBlock>): Bytes
  {
    if bs == [] then [] else
      LittleEndian(magic, 4) + (LittleEndian(|EncodeBlock(bs[0])|, 4) + (EncodeBlock(bs[0]) + EncodeFrames(magic, bs[1..])))
  }

  function AddAll(digest: Bytes -> Hash, blocks: RawData, bs: seq<RawBlock>): RawData
    decreases |bs|
  {
    if bs == [] then blocks else
      var b := BlockOf(digest, bs[0]);
      AddAll(digest, blocks[b.hash := b], bs[1..])
  }

  /** Everything filed before, and every block of the file under its hash; of two with the same hash the last. */
  lemma {:induction false} AddAllMembers(digest: Bytes -> Hash, blocks: RawData, bs: seq<RawBlock>, h: Hash)
    ensures h in AddAll(digest, blocks, bs) <==> h in blocks || exists i :: 0 <= i < |bs| && BlockOf(digest, bs[i]).hash == h
    ensures (forall i | 0 <= i < |bs| :: BlockOf(digest, bs[i]).hash != h) && h in blocks ==>
              AddAll(digest, blocks, bs)[h] == blocks[h]
    ensures forall i | 0 <= i < |bs| && BlockOf(digest, bs[i]).hash == h
                       && (forall j | i < j < |bs| :: BlockOf(digest, bs[j]).hash != h) ::
              AddAll(digest, blocks, bs)[h] == BlockOf(digest, bs[i])
    decreases |bs|
  {
    hide BlockOf;
    if bs != [] {
      var b := BlockOf(digest, bs[0]);
      AddAllMembers(digest, blocks[b.hash := b], bs[1..], h);
      assert forall i | 0 < i < |bs| :: bs[1..][i - 1] == bs[i];
      forall i | 0 <= i < |bs| && BlockOf(digest, bs[i]).hash == h
                 && (forall j | i < j < |bs| :: BlockOf(digest, bs[j]).hash != h)
        ensures AddAll(digest, blocks, bs)[h] == BlockOf(digest, bs[i])
      {
        if i > 0 {
          assert bs[1..][i - 1] == bs[i];
        }
      }
    }
  }

  lemma FrameParts(magic: nat, e: Bytes, tail: Bytes)
    requires magic < TWO_32 && |e| < TWO_32
    ensures var data := LittleEndian(magic, 4) + (LittleEndian(|e|, 4) + (e + tail));
            && FromLittleEndian(data[0..4]) == magic && FromLittleEndian(data[4..8]) == |e|
            && data[8..8 + |e|] == e && data[8 + |e|..] == tail
  {
    Pow256Values();
    LittleEndianRoundTrip(magic, 4);
    LittleEndianRoundTrip(|e|, 4);
    var m, s := LittleEndian(magic, 4), LittleEndian(|e|, 4);
    var data := m + (s + (e + tail));
    assert data[0..4] == m && data[4..8] == s;
    assert data == (m + s) + (e + tail) && data == (m + s + e) + tail;
    assert data[8..8 + |e|] == e && data[8 + |e|..] == tail;
  }

  /** What stands after the blocks of a file ends the loop: nothing, or stray bytes that do not read as the magic. */
  ghost predicate Ends(magic: nat, rest: Bytes, stray: nat)
  {
    stray == 0 || (|rest| >= 4 && FromLittleEndian(rest[0..4]) != magic)
  }

  /**
   A file of well-formed blocks followed by its end, or by stray bytes that do not read as the magic together
   with what the buffer holds after them, yields all of the blocks.
   */
  lemma {:induction false} FramesRoundTrip(digest: Bytes -> Hash, magic: nat, bs: seq<RawBlock>, rest: Bytes,
                                           stray: nat, blocks: RawData)
    requires magic < TWO_32 && forall i | 0 <= i < |bs| :: GoodBlock(bs[i]) && |EncodeBlock(bs[i])| < TWO_32
    requires stray <= |rest| && Ends(magic, rest, stray)
    ensures ParseFrames(digest, magic, EncodeFrames(magic, bs) + rest, |EncodeFrames(magic, bs)| + stray, blocks)
         == Some(AddAll(digest, blocks, bs))
    decreases |bs|
  {
    hide GoodBlock, EncodeBlock, ParseBlock, LittleEndian, FromLittleEndian;
    if bs == [] {
      assert EncodeFrames(magic, bs) + rest == rest;
    } else {
      var e, more := EncodeBlock(bs[0]), EncodeFrames(magic, bs[1..]);
      FrameSplit(LittleEndian(magic, 4), LittleEndian(|e|, 4), e, more, rest);
      FrameParts(magic, e, more + rest);
      BlockRoundTrip(digest, bs[0], []);
      assert e + [] == e;
      var b := BlockOf(digest, bs[0]);
      FramesRoundTrip(digest, magic, bs[1..], rest, stray, blocks[b.hash := b]);
    }
  }

  lemma FrameSplit(m: Bytes, s: Bytes, e: Bytes, more: Bytes, tail: Bytes)
    ensures m + (s + (e + more)) + tail == m + (s + (e + (more + tail)))
  {
  }

  /** Parsing keeps every block under its own hash, as the tracer relies on. */
  lemma {:induction false} FramesFiled(digest: Bytes -> Hash, magic: nat, buffer: Bytes, left: int, blocks: RawData)
    requires Filed(blocks) && ParseFrames(digest, magic, buffer, left, blocks).Some?
    ensures Filed(ParseFrames(digest, magic, buffer, left, blocks).value)
    decreases |buffer|
  {
    hide ParseBlock, FromLittleEndian;
    if left > 0 && |buffer| >= 8 && FromLittleEndian(buffer[0..4]) == magic {
      var size := FromLittleEndian(buffer[4..8]);
      var b := ParseBlock(digest, buffer[8..8 + size]).value.0;
      FramesFiled(digest, magic, buffer[8 + size..], left - 8 - size, blocks[b.hash := b]);
    }
  }
}
