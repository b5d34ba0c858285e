/**
 The two back-tracers. Both walk from a target hash through parent links to the first hash
 already in history and hand over the unknown hashes oldest first: one over raw blocks loaded
 file by file, the other asking a remote node for one header at a time.
 */
module Trace {
  import opened Wrappers
  import opened Bytes
  import opened Reversal
  import opened ChainState

  /** Child to parent: what a remote node answers, or what the loaded blocks say. */
  type Parents = map<Hash, Hash>

  type History = map<Hash, Hash>

  type RawData = map<Hash, BlockData>

  /** Blocks are filed under their own hash. */
  ghost predicate Filed(blocks: RawData)
  {
    forall h | h in blocks :: blocks[h].hash == h
  }

  function ParentsOf(blocks: RawData): Parents
  {
    map h | h in blocks :: blocks[h].previous
  }

  /** Parent links go down in `rank`, so no walk is endless. */
  ghost predicate Acyclic(parents: Parents, rank: Hash -> nat)
  {
    forall h | h in parents :: rank(parents[h]) < rank(h)
  }

  /** The unknown hashes from `h` back to the first known one, newest first; none if the walk breaks off. */
  ghost function PathBack(parents: Parents, history: History, rank: Hash -> nat, h: Hash): Option<seq<Hash>>
    requires Acyclic(parents, rank)
    decreases rank(h)
  {
    if h in history then Some([])
    else if h !in parents then None
    else
      var r := PathBack(parents, history, rank, parents[h]);
      if r.None? then None else Some([h] + r.value)
  }

  // ---------------------------------------------------------------- what a trace is

  /** Oldest first: starts just above a known hash, each the parent of the next, all unknown, ends at the target. */
  ghost predicate Connects(parents: Parents, history: History, chain: seq<Hash>, target: Hash)
  {
    && chain != [] && chain[|chain| - 1] == target
    && (forall i | 0 <= i < |chain| :: chain[i] in parents && chain[i] !in history)
    && parents[chain[0]] in history
    && (forall i | 0 <= i < |chain| - 1 :: parents[chain[i + 1]] == chain[i])
  }

  /** A walk that reaches history gives a connecting chain. */
  lemma {:induction false} PathConnects(parents: Parents, history: History, rank: Hash -> nat, target: Hash)
    requires Acyclic(parents, rank) && target !in history && PathBack(parents, history, rank, target).Some?
    ensures Connects(parents, history, Flip(PathBack(parents, history, rank, target).value), target)
    decreases rank(target)
  {
    var p := parents[target];
    var r := PathBack(parents, history, rank, p).value;
    FlipCons(target, r);
    var chain := Flip(r) + [target];
    if p !in history {
      PathConnects(parents, history, rank, p);
      var front := Flip(r);
      forall i | 0 <= i < |chain| - 1 ensures parents[chain[i + 1]] == chain[i] {
        if i + 1 < |front| {
          assert chain[i + 1] == front[i + 1] && chain[i] == front[i];
        }
      }
    }
  }

  /** A connecting chain is the one the walk finds. */
  lemma {:induction false} ConnectsIsPath(parents: Parents, history: History, rank: Hash -> nat, chain: seq<Hash>,
                                          target: Hash)
    requires Acyclic(parents, rank) && Connects(parents, history, chain, target)
    ensures PathBack(parents, history, rank, target) == Some(Flip(chain))
    decreases |chain|
  {
    var n := |chain| - 1;
    var front := chain[..n];
    assert chain == front + [target];
    assert Flip(chain) == [target] + Flip(front);
    if n == 0 {
      assert parents[target] in history;
    } else {
      assert parents[chain[n - 1 + 1]] == chain[n - 1];
      assert forall i | 0 <= i < |front| :: front[i] == chain[i];
      forall i | 0 <= i < |front| - 1 ensures parents[front[i + 1]] == front[i] {
        assert parents[chain[i + 1]] == chain[i];
      }
      ConnectsIsPath(parents, history, rank, front, chain[n - 1]);
    }
  }

  /** Ranks rise along a chain, so no hash occurs twice. */
  lemma {:induction false} ConnectsRank(parents: Parents, history: History, rank: Hash -> nat,
                                        chain: seq<Hash>, target: Hash, i: nat, j: nat)
    requires Acyclic(parents, rank) && Connects(parents, history, chain, target) && i < j < |chain|
    ensures rank(chain[i]) < rank(chain[j])
    decreases j
  {
    assert parents[chain[j - 1 + 1]] == chain[j - 1];
    if i < j - 1 {
      ConnectsRank(parents, history, rank, chain, target, i, j - 1);
    }
  }

  /** More blocks, agreeing on what was there, do not change a walk that has succeeded. */
  lemma {:induction false} PathMonotone(few: Parents, many: Parents, history: History, rank: Hash -> nat, h: Hash)
    requires Acyclic(few, rank) && Acyclic(many, rank) && PathBack(few, history, rank, h).Some?
    requires forall x | x in few :: x in many && many[x] == few[x]
    ensures PathBack(many, history, rank, h) == PathBack(few, history, rank, h)
    decreases rank(h)
  {
    if h !in history {
      PathMonotone(few, many, history, rank, few[h]);
    }
  }

  /** A walk continued after some hashes have been collected. */
  ghost function Prepend(found: seq<Hash>, rest: Option<seq<Hash>>): Option<seq<Hash>>
  {
    if rest.None? then None else Some(found + rest.value)
  }

  lemma PrependStep(parents: Parents, history: History, rank: Hash -> nat, found: seq<Hash>, h: Hash)
    requires Acyclic(parents, rank) && h !in history
    ensures Prepend(found, PathBack(parents, history, rank, h))
         == if h !in parents then None else Prepend(found + [h], PathBack(parents, history, rank, parents[h]))
  {
    if h in parents && PathBack(parents, history, rank, parents[h]).Some? {
      ConcatAssoc(found, [h], PathBack(parents, history, rank, parents[h]).value);
    }
  }

  lemma PrependEnds(found: seq<Hash>, rest: Option<seq<Hash>>)
    ensures Prepend([], rest) == rest && Prepend(found, Some([])) == Some(found)
  {
    assert found + [] == found;
    if rest.Some? { assert [] + rest.value == rest.value; }
  }

  // ---------------------------------------------------------------- the remote tracer

  /** What asking the remote node comes to: the unknown hashes oldest first, or an error. */
  ghost function RestResult(remote: Parents, history: History, rank: Hash -> nat, target: Hash): Option<seq<Hash>>
    requires Acyclic(remote, rank)
  {
    var path := PathBack(remote, history, rank, target);
    if path.None? then None else Some(Flip(path.value))
  }

  /** `rest_trace_chain`: nothing for a known target, an error if the remote node has no header. */
  method RestTrace(remote: Parents, target: Hash, history: History, ghost rank: Hash -> nat)
    returns (chain: Option<seq<Hash>>)
    requires Acyclic(remote, rank)
    ensures chain == RestResult(remote, history, rank, target)
  {
    if target in history {
      return Some([]);
    }
    var hash, found: seq<Hash> := target, [];
    ghost var path := PathBack(remote, history, rank, target);
    PrependEnds([], path);
    while hash !in history
      invariant path == Prepend(found, PathBack(remote, history, rank, hash))
      decreases rank(hash)
    {
      PrependStep(remote, history, rank, found, hash);
      found := found + [hash];
      if hash !in remote {
        return None;
      }
      hash := remote[hash];
    }
    PrependEnds(found, path);
    var oldestFirst := Reverse(found);
    return Some(oldestFirst);
  }

  // ---------------------------------------------------------------- the tracer over loaded blocks

  /** What `direct_trace_chain` walks: the target itself is never looked up in history first. */
  ghost function DirectBack(blocks: RawData, history: History, rank: Hash -> nat, target: Hash): Option<seq<Hash>>
    requires Acyclic(ParentsOf(blocks), rank)
  {
    if target !in blocks then if target in history then Some([]) else None
    else
      var r := PathBack(ParentsOf(blocks), history, rank, blocks[target].previous);
      Prepend([target], r)
  }

  /** For a target outside history the difference does not show. */
  lemma DirectIsPath(blocks: RawData, history: History, rank: Hash -> nat, target: Hash)
    requires Acyclic(ParentsOf(blocks), rank) && target !in history
    ensures DirectBack(blocks, history, rank, target) == PathBack(ParentsOf(blocks), history, rank, target)
  {
  }

  /** What walking the loaded blocks comes to; an empty list if the walk breaks off. */
  ghost function DirectResult(blocks: RawData, history: History, rank: Hash -> nat, target: Hash): seq<Hash>
    requires Acyclic(ParentsOf(blocks), rank)
  {
    var path := DirectBack(blocks, history, rank, target);
    if path.None? then [] else Flip(path.value)
  }

  /** `direct_trace_chain`: an empty result means no chain was found. */
  method DirectTrace(blocks: RawData, target: Hash, history: History, ghost rank: Hash -> nat)
    returns (chain: seq<Hash>)
    requires Acyclic(ParentsOf(blocks), rank)
    ensures chain == DirectResult(blocks, history, rank, target)
  {
    var hash, found: seq<Hash> := target, [];
    ghost var parents := ParentsOf(blocks);
    ghost var path := DirectBack(blocks, history, rank, target);
    while true
      invariant found == [] ==> hash == target
      invariant found != [] ==> hash !in history && path == Prepend(found, PathBack(parents, history, rank, hash))
      decreases rank(hash)
    {
      if hash in blocks {
        assert hash in parents && parents[hash] == blocks[hash].previous;
        if found == [] {
          assert found + [hash] == [target];
        } else {
          PrependStep(parents, history, rank, found, hash);
        }
        found := found + [hash];
        hash := blocks[hash].previous;
        if hash in history {
          PrependEnds(found, path);
          break;
        }
      } else {
        break;
      }
    }
    if hash !in history {
      return [];
    }
    chain := Reverse(found);
  }

  // ---------------------------------------------------------------- loading files until a chain is found

  /** Files agree on the parent of any block they share: a hash determines its block. */
  ghost predicate Consistent(files: seq<RawData>, all: RawData)
  {
    forall i, h | 0 <= i < |files| && h in files[i] :: h in all && all[h] == files[i][h]
  }

  /** Everything the last `n` files hold, which are read first. */
  function Loaded(files: seq<RawData>, n: nat): RawData
    requires n <= |files|
  {
    if n == 0 then map[] else Loaded(files, n - 1) + files[|files| - n]
  }

  lemma {:induction false} LoadedWithin(files: seq<RawData>, all: RawData, n: nat)
    requires Consistent(files, all) && n <= |files|
    ensures forall h | h in Loaded(files, n) :: h in all && all[h] == Loaded(files, n)[h]
  {
    if n > 0 {
      LoadedWithin(files, all, n - 1);
    }
  }

  lemma {:induction false} LoadedGrows(files: seq<RawData>, all: RawData, m: nat, n: nat)
    requires Consistent(files, all) && m <= n <= |files|
    ensures forall h | h in Loaded(files, m) :: h in Loaded(files, n)
    decreases n
  {
    if m < n {
      LoadedGrows(files, all, m, n - 1);
    }
  }

  /** Nothing but what some file holds. */
  ghost predicate Covered(files: seq<RawData>, all: RawData)
  {
    forall h | h in all :: InSome(files, 0, h)
  }

  /** The block is in one of the files from number `from` on. */
  ghost predicate InSome(files: seq<RawData>, from: nat, h: Hash)
  {
    exists i :: from <= i < |files| && h in files[i]
  }

  /** The last `n` files have been read, each of them and nothing else. */
  lemma {:induction false} LoadedMembers(files: seq<RawData>, n: nat, h: Hash)
    requires n <= |files|
    ensures h in Loaded(files, n) <==> InSome(files, |files| - n, h)
  {
    if n > 0 {
      LoadedMembers(files, n - 1, h);
      var first := |files| - n;
      if i :| first <= i < |files| && h in files[i] {
        assert i == first || InSome(files, first + 1, h);
      }
      if i :| first + 1 <= i < |files| && h in files[i] {
        assert InSome(files, first, h);
      }
    }
  }

  /** All files together are the union of what they hold. */
  lemma LoadedIsAll(files: seq<RawData>, all: RawData)
    requires Consistent(files, all) && Covered(files, all)
    ensures Loaded(files, |files|) == all
  {
    LoadedWithin(files, all, |files|);
    hide Consistent, Loaded, InSome;
    forall h ensures h in Loaded(files, |files|) <==> InSome(files, 0, h) {
      LoadedMembers(files, |files|, h);
    }
  }

  lemma LoadedAcyclic(files: seq<RawData>, all: RawData, rank: Hash -> nat, n: nat)
    requires Consistent(files, all) && Acyclic(ParentsOf(all), rank) && n <= |files|
    ensures Acyclic(ParentsOf(Loaded(files, n)), rank)
  {
    LoadedWithin(files, all, n);
    forall h | h in ParentsOf(Loaded(files, n)) ensures rank(ParentsOf(Loaded(files, n))[h]) < rank(h) {
      assert ParentsOf(all)[h] == ParentsOf(Loaded(files, n))[h];
    }
  }

  /** `few` is part of `many`. */
  ghost predicate Extends(many: Parents, few: Parents)
  {
    forall h | h in few :: h in many && many[h] == few[h]
  }

  lemma LoadedSubset(files: seq<RawData>, all: RawData, n: nat)
    requires Consistent(files, all) && n <= |files|
    ensures Extends(ParentsOf(Loaded(files, |files|)), ParentsOf(Loaded(files, n)))
  {
    LoadedWithin(files, all, n);
    LoadedWithin(files, all, |files|);
    LoadedGrows(files, all, n, |files|);
  }

  /** A trace over some of the blocks is, once it is not empty, the trace over all of them. */
  lemma DirectMonotone(few: RawData, many: RawData, history: History, rank: Hash -> nat, target: Hash)
    requires Acyclic(ParentsOf(few), rank) && Acyclic(ParentsOf(many), rank) && Extends(ParentsOf(many), ParentsOf(few))
    requires DirectResult(few, history, rank, target) != []
    ensures DirectResult(many, history, rank, target) == DirectResult(few, history, rank, target)
  {
    assert target in ParentsOf(few);
    PathMonotone(ParentsOf(few), ParentsOf(many), history, rank, few[target].previous);
  }

  /** Every hash of a trace has been loaded. */
  lemma DirectIsLoaded(blocks: RawData, history: History, rank: Hash -> nat, target: Hash)
    requires Acyclic(ParentsOf(blocks), rank)
    ensures forall h | h in DirectResult(blocks, history, rank, target) :: h in blocks
  {
    var path := DirectBack(blocks, history, rank, target);
    if target in blocks && path.Some? {
      var r := PathBack(ParentsOf(blocks), history, rank, blocks[target].previous).value;
      PathIsLoaded(ParentsOf(blocks), history, rank, blocks[target].previous);
      assert path.value == [target] + r;
      FlipMembers([target] + r);
    }
  }

  lemma FlipMembers<T>(s: seq<T>)
    ensures forall x | x in Flip(s) :: x in s
  {
  }

  lemma {:induction false} PathIsLoaded(parents: Parents, history: History, rank: Hash -> nat, h: Hash)
    requires Acyclic(parents, rank)
    ensures var r := PathBack(parents, history, rank, h); r.Some? ==> forall x | x in r.value :: x in parents
    decreases rank(h)
  {
    if h !in history && h in parents {
      PathIsLoaded(parents, history, rank, parents[h]);
    }
  }

  /** For an unknown target the result is the one connecting chain, if there is one. */
  lemma DirectFinds(blocks: RawData, history: History, rank: Hash -> nat, target: Hash)
    requires Acyclic(ParentsOf(blocks), rank) && target !in history
    ensures var r := DirectResult(blocks, history, rank, target);
            forall c :: Connects(ParentsOf(blocks), history, c, target) <==> c == r != []
  {
    var parents, r := ParentsOf(blocks), DirectResult(blocks, history, rank, target);
    DirectIsPath(blocks, history, rank, target);
    hide Connects, Acyclic, ParentsOf;
    if r != [] {
      PathConnects(parents, history, rank, target);
    }
    forall c | Connects(parents, history, c, target) ensures c == r != [] {
      ConnectsIsPath(parents, history, rank, c, target);
      FlipTwice(c);
      NotEmpty(parents, history, c, target);
    }
  }

  lemma NotEmpty(parents: Parents, history: History, chain: seq<Hash>, target: Hash)
    requires Connects(parents, history, chain, target)
    ensures chain != []
  {
  }

  /** A loaded target, known or not, comes last behind the chain that connects its parent. */
  lemma DirectThroughParent(blocks: RawData, history: History, rank: Hash -> nat, target: Hash)
    requires Acyclic(ParentsOf(blocks), rank) && target in blocks
    ensures var r, p := DirectResult(blocks, history, rank, target), blocks[target].previous;
            if p in history then r == [target]
            else forall c :: Connects(ParentsOf(blocks), history, c, p) <==> r == c + [target] && c != []
  {
    var parents, r, p := ParentsOf(blocks), DirectResult(blocks, history, rank, target), blocks[target].previous;
    if p !in history {
      var path := PathBack(parents, history, rank, p);
      if path.Some? {
        FlipCons(target, path.value);
        PathConnects(parents, history, rank, p);
      }
      forall c ensures Connects(parents, history, c, p) <==> r == c + [target] && c != [] {
        if Connects(parents, history, c, p) {
          ConnectsIsPath(parents, history, rank, c, p);
          FlipTwice(c);
        }
        if path.Some? {
          SnocSame(c, Flip(path.value), target);
        }
      }
    }
  }

  lemma SnocSame<T>(a: seq<T>, b: seq<T>, x: T)
    ensures a + [x] == b + [x] <==> a == b
  {
    assert (a + [x])[..|a|] == a && (b + [x])[..|b|] == b;
  }

  lemma NothingLoaded(history: History, rank: Hash -> nat, target: Hash)
    ensures Acyclic(ParentsOf(map[]), rank) && DirectResult(map[], history, rank, target) == []
  {
  }

  /**
   `direct_load_trace`: reading files newest first and tracing after each one gives, for any
   target, what one trace over all files together gives. With `all` the blocks of the files, it finds for an unknown
   target the one chain that connects it to history, and nothing exactly if there is none.
   */
  method DirectLoadTrace(files: seq<RawData>, target: Hash, history: History, ghost all: RawData,
                         ghost rank: Hash -> nat)
    returns (chain: seq<Hash>, blocks: RawData)
    requires Consistent(files, all) && Acyclic(ParentsOf(all), rank)
    ensures Acyclic(ParentsOf(Loaded(files, |files|)), rank)
    ensures chain == DirectResult(Loaded(files, |files|), history, rank, target)
    ensures Covered(files, all) ==> chain == DirectResult(all, history, rank, target)
    ensures Covered(files, all) && target !in history ==>
              forall c :: Connects(ParentsOf(all), history, c, target) <==> c == chain != []
    ensures forall i | 0 <= i < |chain| :: chain[i] in blocks
    ensures forall h | h in blocks :: h in all && blocks[h] == all[h]
  {
    hide PathBack, Consistent, Acyclic, ParentsOf, DirectResult, Extends, Covered, Connects;
    blocks, chain := map[], [];
    if Covered(files, all) {
      LoadedIsAll(files, all);
      if target !in history {
        DirectFinds(all, history, rank, target);
      }
    }
    var n := 0;
    NothingLoaded(history, rank, target);
    LoadedAcyclic(files, all, rank, |files|);
    while n < |files|
      invariant n <= |files| && blocks == Loaded(files, n)
      invariant Acyclic(ParentsOf(blocks), rank) && chain == [] == DirectResult(blocks, history, rank, target)
    {
      n := n + 1;
      blocks := blocks + files[|files| - n];
      LoadedAcyclic(files, all, rank, n);
      LoadedWithin(files, all, n);
      chain := DirectTrace(blocks, target, history, rank);
      if |chain| != 0 {
        LoadedSubset(files, all, n);
        DirectMonotone(blocks, Loaded(files, |files|), history, rank, target);
        DirectIsLoaded(blocks, history, rank, target);
        return;
      }
    }
    LoadedWithin(files, all, n);
  }

  // ---------------------------------------------------------------- when the tracers agree

  /**
   Given a remote node that knows at least the loaded blocks, the tracers return the same list
   exactly if the target is unknown and its chain is loaded, or the target is known and not loaded
   with a chain through its parent.
   */
  lemma TracersAgree(blocks: RawData, remote: Parents, history: History, rank: Hash -> nat, target: Hash)
    requires Acyclic(ParentsOf(blocks), rank) && Acyclic(remote, rank) && Extends(remote, ParentsOf(blocks))
    ensures RestResult(remote, history, rank, target) == Some(DirectResult(blocks, history, rank, target)) <==>
            if target in history
            then !(target in blocks && PathBack(ParentsOf(blocks), history, rank, blocks[target].previous).Some?)
            else PathBack(ParentsOf(blocks), history, rank, target).Some?
  {
    var parents := ParentsOf(blocks);
    if target !in history {
      DirectIsPath(blocks, history, rank, target);
      if PathBack(parents, history, rank, target).Some? {
        PathMonotone(parents, remote, history, rank, target);
      } else if target in remote && PathBack(remote, history, rank, target).Some? {
        assert |RestResult(remote, history, rank, target).value| > 0;
      }
    } else {
      assert RestResult(remote, history, rank, target) == Some([]);
      if target in blocks && PathBack(parents, history, rank, blocks[target].previous).Some? {
        assert |DirectResult(blocks, history, rank, target)| > 0;
      }
    }
  }

  /** A known parent of lower rank, the one the loaded blocks give. */
  ghost predicate LinkedDown(history: History, blocks: RawData, rank: Hash -> nat, h: Hash)
    requires h in history
  {
    history[h] in history && rank(history[h]) < rank(h) && (h in blocks ==> blocks[h].previous == history[h])
  }

  /** Every known hash but the root is linked down. */
  ghost predicate Grounded(history: History, root: Hash, blocks: RawData, rank: Hash -> nat)
  {
    && root in history
    && forall h {:trigger LinkedDown(history, blocks, rank, h)} | h in history && h != root ::
         LinkedDown(history, blocks, rank, h)
  }

  lemma {:induction false} RootIsLowest(history: History, root: Hash, blocks: RawData, rank: Hash -> nat, h: Hash)
    requires Grounded(history, root, blocks, rank) && h in history
    ensures rank(root) <= rank(h)
    decreases rank(h)
  {
    if h != root {
      assert LinkedDown(history, blocks, rank, h);
      RootIsLowest(history, root, blocks, rank, history[h]);
    }
  }

  /** From below the root no walk reaches history. */
  lemma {:induction false} NoPathBelowRoot(history: History, root: Hash, blocks: RawData, rank: Hash -> nat, h: Hash)
    requires Grounded(history, root, blocks, rank) && Acyclic(ParentsOf(blocks), rank) && rank(h) < rank(root)
    ensures PathBack(ParentsOf(blocks), history, rank, h).None?
    decreases rank(h)
  {
    if h in history {
      RootIsLowest(history, root, blocks, rank, h);
    } else if h in ParentsOf(blocks) {
      NoPathBelowRoot(history, root, blocks, rank, ParentsOf(blocks)[h]);
    }
  }

  /** Where every known hash is linked down to a root, the tracers differ on exactly the known, loaded targets above it. */
  lemma TracersAgreeGrounded(blocks: RawData, remote: Parents, history: History, root: Hash, rank: Hash -> nat,
                             target: Hash)
    requires Acyclic(ParentsOf(blocks), rank) && Acyclic(remote, rank) && Extends(remote, ParentsOf(blocks))
    requires Grounded(history, root, blocks, rank)
    ensures RestResult(remote, history, rank, target) == Some(DirectResult(blocks, history, rank, target)) <==>
            if target in history then target !in blocks || target == root
            else PathBack(ParentsOf(blocks), history, rank, target).Some?
  {
    TracersAgree(blocks, remote, history, rank, target);
    assert target in history && target != root ==> LinkedDown(history, blocks, rank, target);
    if target == root && target in blocks {
      assert ParentsOf(blocks)[target] == blocks[target].previous;
      NoPathBelowRoot(history, root, blocks, rank, blocks[target].previous);
    }
  }

  // ---------------------------------------------------------------- sending the blocks

  datatype Delivery = AllSent | FetchFailed | WrongBlock

  /**
   `rest_get_block_range` after tracing: blocks are sent one by one until a fetch fails, or until the
   remote node answers with a block of another hash, which halts.
   */
  method RestSend(remote: RawData, chain: seq<Hash>) returns (out: seq<BlockData>, d: Delivery)
    ensures |out| <= |chain|
    ensures forall i | 0 <= i < |out| :: chain[i] in remote && out[i] == remote[chain[i]] && out[i].hash == chain[i]
    ensures d == if |out| == |chain| then AllSent else if chain[|out|] !in remote then FetchFailed else WrongBlock
    ensures d == WrongBlock ==> remote[chain[|out|]].hash != chain[|out|]
  {
    out := [];
    for i := 0 to |chain|
      invariant |out| == i
      invariant forall j | 0 <= j < i :: chain[j] in remote && out[j] == remote[chain[j]] && out[j].hash == chain[j]
    {
      if chain[i] !in remote {
        return out, FetchFailed;
      }
      var block := remote[chain[i]];
      if block.hash != chain[i] {
        return out, WrongBlock;
      }
      out := out + [block];
    }
    return out, AllSent;
  }

  /** `direct_get_block_range` after tracing. */
  method DirectSend(blocks: RawData, chain: seq<Hash>) returns (out: seq<BlockData>)
    requires forall i | 0 <= i < |chain| :: chain[i] in blocks
    ensures |out| == |chain| && forall i | 0 <= i < |out| :: out[i] == blocks[chain[i]]
  {
    out := [];
    for i := 0 to |chain|
      invariant |out| == i && forall j | 0 <= j < i :: out[j] == blocks[chain[j]]
    {
      out := out + [blocks[chain[i]]];
    }
  }
}
