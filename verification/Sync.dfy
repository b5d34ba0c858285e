/**
 `btc_sync` as two goroutines over an unbuffered channel and a mutex: the main goroutine sends
 traced blocks, possibly stops early, closes the channel and waits for the lock; the worker
 ingests what it receives, flushes once the channel is closed and unlocks. A panic of the worker ends
 the whole process.
 */
module Sync {
  import opened Wrappers
  import opened Bytes
  import opened KeyValue
  import opened Layout
  import opened ChainState
  import opened Step
  import opened Miner
  import opened Runs
  import opened Trace

  /** `Sending(n)`: inside the range producer with `n` blocks sent. `Past`: the final lock is taken. */
  datatype Main = Sending(next: nat) | Returned | Past

  datatype Worker = Receiving | Working(bd: BlockData) | Draining | Written | Finished | Crashed

  /** `held`: the blocks in libcomb and in the store behind its batch. */
  datatype Sys = Sys(
    main: Main, worker: Worker, closed: bool, unlocked: bool,
    sent: seq<BlockData>, processed: seq<BlockData>,
    st: State, held: seq<Block>)

  /** What stays fixed during a sync: the trace and the chain it starts from. */
  datatype Job = Job(cp: Checkpoint, digest: Bytes -> Hash, trace: seq<BlockData>, start: seq<Block>)

  /** The blocks are those of a trace, wherever it is rooted, or of any other run that is accepted. */
  ghost predicate Sound(job: Job)
  {
    && Based(job)
    && (Traced(job.cp, job.start, job.trace) || Accepted(job))
  }

  ghost predicate Based(job: Job)
  {
    && Linked(job.cp, job.start) && Authentic(job.digest, job.start)
    && Room(job.cp, job.start, job.trace)
  }

  ghost predicate Accepted(job: Job)
  {
    Run(job.cp, job.digest, job.start, job.trace).Some?
  }

  /** A trace on the checkpoint under a non-empty chain: it goes through without a halt and leaves no chain behind. */
  ghost predicate Rerooted(job: Job)
  {
    Traced(job.cp, job.start, job.trace) && job.start != [] && job.trace[0].previous == job.cp.hash
  }

  ghost predicate Init(job: Job, s: Sys)
  {
    && s.main == Sending(0) && s.worker == Receiving && !s.closed && !s.unlocked
    && s.sent == [] && s.processed == []
    && s.held == job.start && exists k :: Agree(job.cp, job.digest, s.st, s.held, k)
  }

  // ---------------------------------------------------------------- steps

  /** Rendezvous on the unbuffered channel. */
  ghost predicate Send(job: Job, s: Sys, s': Sys)
  {
    && s.main.Sending? && s.main.next < |job.trace| && s.worker.Receiving?
    && var bd := job.trace[s.main.next];
       s' == s.(main := Sending(s.main.next + 1), worker := Working(bd), sent := s.sent + [bd])
  }

  /** The producer returns, having sent everything or not, and its deferred close runs. */
  ghost predicate Stop(job: Job, s: Sys, s': Sys)
  {
    s.main.Sending? && !s.worker.Crashed? && s' == s.(main := Returned, closed := true)
  }

  /** Where a block goes: on the tip, or on a block below. */
  function Place(job: Job, s: Sys, bd: BlockData): (q: Option<nat>)
    ensures q.Some? ==> q.value <= |s.held|
  {
    if bd.previous == s.st.hash then Some(|s.held|) else PositionOf(job.cp, s.held, bd.previous)
  }

  ghost predicate Process(job: Job, s: Sys, s': Sys)
  {
    && s.worker.Working?
    && var q := Place(job, s, s.worker.bd);
       && q.Some? && |s.st.lib| == |s.held|
       && var n := Step.Loaded(|s.held|, q.value);
          s' == s.(
            worker := Receiving,
            processed := s.processed + [s.worker.bd],
            st := Ingested(job.digest, Positioned(job.cp, s.st, s.held, q.value), s.worker.bd),
            held := s.held[..n] + [NewBlock(job.digest, s.worker.bd, job.cp.height + n + 1)])
  }

  /** A parent off the active chain halts: at once if it is unknown, otherwise after the flush. */
  ghost predicate Crash(job: Job, s: Sys, s': Sys)
  {
    && s.worker.Working? && Place(job, s, s.worker.bd).None?
    && s' == s.(worker := Crashed, st := if s.worker.bd.previous in s.st.chain then Flushed(s.st) else s.st)
  }

  ghost predicate LeaveLoop(s: Sys, s': Sys)
  {
    s.worker.Receiving? && s.closed && s' == s.(worker := Draining)
  }

  ghost predicate Flush(s: Sys, s': Sys)
  {
    s.worker.Draining? && s' == s.(worker := Written, st := Flushed(s.st))
  }

  ghost predicate Unlock(s: Sys, s': Sys)
  {
    s.worker.Written? && s' == s.(worker := Finished, unlocked := true)
  }

  ghost predicate PassLock(s: Sys, s': Sys)
  {
    s.main.Returned? && s.unlocked && s' == s.(main := Past)
  }

  ghost predicate Next(job: Job, s: Sys, s': Sys)
  {
    || Send(job, s, s') || Stop(job, s, s') || Process(job, s, s') || Crash(job, s, s')
    || LeaveLoop(s, s') || Flush(s, s') || Unlock(s, s') || PassLock(s, s')
  }

  // ---------------------------------------------------------------- safety

  function InFlight(w: Worker): seq<BlockData>
  {
    if w.Working? then [w.bd] else []
  }

  ghost predicate Flow(job: Job, s: Sys)
  {
    && s.sent <= job.trace
    && (if s.worker.Crashed? then s.processed < s.sent else s.processed + InFlight(s.worker) == s.sent)
    && (s.main.Sending? ==> s.main.next == |s.sent|)
    && (s.closed <==> !s.main.Sending?)
    && (s.worker.Draining? || s.worker.Written? || s.worker.Finished? ==> s.closed)
    && (s.unlocked <==> s.worker.Finished?)
    && (s.main.Past? ==> s.worker.Finished?)
  }

  ghost predicate AtRest(w: Worker)
  {
    w.Written? || w.Finished?
  }

  /** What is held is the run of the blocks processed. */
  ghost predicate OnRun(job: Job, s: Sys)
  {
    Run(job.cp, job.digest, job.start, s.processed) == Some(s.held)
  }

  /** The three views agree on it. */
  ghost predicate Good(job: Job, s: Sys)
  {
    && OnRun(job, s)
    && (exists k :: Agree(job.cp, job.digest, s.st, s.held, k))
    && (AtRest(s.worker) ==> Agree(job.cp, job.digest, s.st, s.held, |s.held|) && s.st.batch == [])
  }

  /** After a reorg to the checkpoint: the first old block with the blocks processed on top. */
  ghost predicate Broken(job: Job, s: Sys)
  {
    && Rerooted(job) && s.processed != [] && s.st.hash == s.processed[|s.processed| - 1].hash
    && s.held == job.start[..1] + NewBlocks(job.digest, s.processed, job.cp.height + 1)
    && (exists m :: Tracks(job.cp, s.st, s.held, m))
    && (AtRest(s.worker) ==> Tracks(job.cp, s.st, s.held, |s.held|) && s.st.batch == [])
  }

  /** A crash comes at the first block or not at all, and the store is as good as before. */
  ghost predicate Lost(job: Job, s: Sys)
  {
    && s.processed == [] && StoresPrefixOf(s.st.db, job.start)
    && job.trace != [] && !OnPath(job.cp, job.start, job.trace[0].previous)
  }

  ghost predicate Held(job: Job, s: Sys)
  {
    if s.worker.Crashed? then Lost(job, s) else Good(job, s) || Broken(job, s)
  }

  lemma InitHolds(job: Job, s: Sys)
    requires Sound(job) && Init(job, s)
    ensures Flow(job, s) && Held(job, s)
  {
    hide Agree, Linked, Authentic, ChainStepped;
  }

  lemma FlowKept(job: Job, s: Sys, s': Sys)
    requires Flow(job, s) && Next(job, s, s')
    ensures Flow(job, s')
  {
    hide Ingested, Positioned, PositionOf, Flushed;
  }

  /** The block in flight is the next one of the run. */
  lemma InFlightIsNext(job: Job, s: Sys)
    requires Flow(job, s) && s.worker.Working?
    ensures var n := |s.processed|;
            && n < |job.trace| && job.trace[..n] == s.processed && job.trace[n] == s.worker.bd
            && job.trace[..n + 1] == s.processed + [s.worker.bd]
  {
    assert s.sent == s.processed + [s.worker.bd];
    assert job.trace[..|s.processed| + 1] == s.sent;
  }

  /** In an accepted run its step is accepted. */
  lemma ProcessAccepted(job: Job, s: Sys)
    requires Based(job) && Accepted(job) && Flow(job, s) && OnRun(job, s) && s.worker.Working?
    ensures ChainStepped(job.cp, job.digest, s.held, s.worker.bd).Some?
    ensures Run(job.cp, job.digest, job.start, s.processed + [s.worker.bd]) == ChainStepped(job.cp, job.digest, s.held, s.worker.bd)
    ensures job.cp.height + |s.held| + 1 < HEIGHT_LIMIT && |s.worker.bd.commits| <= TWO_32
  {
    hide Linked, Authentic, Room, Agree, ChainStepped, Run, DistinctHashes, Traced, Flow;
    var n := |s.processed|;
    InFlightIsNext(job, s);
    RunPrefix(job.cp, job.digest, job.start, job.trace, n + 1);
    RunSnoc(job.cp, job.digest, job.start, job.trace, n);
    RunRoom(job.cp, job.digest, job.start, job.trace, n);
  }

  /** If a trace is not accepted, that shows at its first block. */
  lemma FirstDecides(job: Job, s: Sys)
    requires Based(job) && Traced(job.cp, job.start, job.trace) && !Accepted(job) && Flow(job, s) && OnRun(job, s)
    ensures s.processed == []
    ensures forall j | 0 <= j <= |job.start| && HashAt(job.cp, job.start, j) == job.trace[0].previous :: j == 0 && job.start != []
  {
    hide Linked, Authentic, Room, Agree, ChainStepped, Run, Traced, HashAt;
    SyncAccepted(job.cp, job.digest, job.start, job.trace);
    if s.processed != [] {
      var n := |s.processed|;
      assert job.trace[..n] == s.processed && job.trace[..n][..1] == job.trace[..1];
      RunPrefix(job.cp, job.digest, job.start, job.trace[..n], 1);
      FirstStep(job.cp, job.digest, job.start, job.trace);
      assert false;
    }
  }

  lemma PlaceOnPath(job: Job, s: Sys, bd: BlockData)
    requires Good(job, s)
    ensures Place(job, s, bd) == PositionOf(job.cp, s.held, bd.previous)
    ensures |s.st.lib| == |s.held| && DistinctHashes(job.cp, s.held)
    ensures Place(job, s, bd).Some? ==> HashAt(job.cp, s.held, Place(job, s, bd).value) == bd.previous
  {
    hide Run, StoreHolds, Storable, Authentic, ChainHolds, Chained, DistinctHashes;
  }

  lemma ProcessAcceptedKeeps(job: Job, s: Sys, s': Sys)
    requires Based(job) && Accepted(job) && Flow(job, s) && Good(job, s) && Process(job, s, s')
    ensures Good(job, s')
  {
    hide Linked, Authentic, Room, Agree, Run, Accepts, Ingested, Positioned, NewBlock, Traced, Flow, Place,
         DistinctHashes;
    ProcessAccepted(job, s);
    var bd := s.worker.bd;
    PlaceOnPath(job, s, bd);
    var j := StepFollows(job.cp, job.digest, s.held, bd);
    var k :| Agree(job.cp, job.digest, s.st, s.held, k);
    var q := PositionOf(job.cp, s.held, bd.previous).value;
    AcceptedAbove(job.cp, s.held, q, bd.hash);
    AcceptedStep(job.cp, job.digest, s.st, s.held, k, q, bd);
  }

  lemma AcceptedAbove(cp: Checkpoint, bs: seq<Block>, j: nat, h: Hash)
    requires j <= |bs| && Accepts(cp, bs, j, h)
    ensures Step.Loaded(|bs|, j) == j
  {
  }

  /** The first block of a trace on the checkpoint. */
  lemma ProcessReroots(job: Job, s: Sys, s': Sys)
    requires Based(job) && Traced(job.cp, job.start, job.trace) && !Accepted(job)
    requires Flow(job, s) && Good(job, s) && Process(job, s, s')
    ensures Broken(job, s')
  {
    hide Linked, Authentic, Agree, Run, Ingested, Positioned, NewBlock, Flow, Place, DistinctHashes, HashAt, Tracks,
         NewBlocks;
    var bd, start := s.worker.bd, job.start;
    FirstDecides(job, s);
    InFlightIsNext(job, s);
    PlaceOnPath(job, s, bd);
    HeldAtStart(job, s);
    var k :| Agree(job.cp, job.digest, s.st, start, k);
    CheckpointHash(job.cp, start);
    TracksReroot(job.cp, job.digest, s.st, start, k);
    assert Fresh(job.cp, start, job.trace[0].hash);
    var m := TracksIngest(job.cp, job.digest, Positioned(job.cp, s.st, start, 0), start[..1], 1, bd);
    assert s'.processed == [bd] == job.trace[..1];
    NewBlocksOne(job.digest, job.trace, job.cp.height + 1);
  }

  lemma HeldAtStart(job: Job, s: Sys)
    requires Good(job, s) && s.processed == []
    ensures s.held == job.start
  {
  }

  /** The blocks after it each go on the tip. */
  lemma BrokenKeeps(job: Job, s: Sys, s': Sys)
    requires Sound(job) && Flow(job, s) && Broken(job, s) && Process(job, s, s')
    ensures Broken(job, s')
  {
    hide Linked, Authentic, Agree, Ingested, NewBlock, Tracks, NewBlocks, Flow, Traced, Sound;
    var bd, n := s.worker.bd, |s.processed|;
    BrokenOnTip(job, s);
    BrokenNext(job, s);
    var m :| Tracks(job.cp, s.st, s.held, m);
    var m' := TracksIngest(job.cp, job.digest, s.st, s.held, m, bd);
    assert s.held[..|s.held|] == s.held;
    RerootedSnoc(job.digest, job.start[..1], s.processed, bd, job.cp.height + 1);
  }

  lemma RerootedSnoc(digest: Bytes -> Hash, first: seq<Block>, bds: seq<BlockData>, bd: BlockData, h: nat)
    ensures first + NewBlocks(digest, bds + [bd], h) == first + NewBlocks(digest, bds, h) + [NewBlock(digest, bd, h + 1 + |bds|)]
  {
    hide NewBlocks, NewBlock;
    assert (bds + [bd])[..|bds|] == bds;
    NewBlocksSnoc(digest, bds + [bd], h);
    ConcatAssoc(first, NewBlocks(digest, bds, h), [NewBlock(digest, bd, h + 1 + |bds|)]);
  }

  lemma BrokenOnTip(job: Job, s: Sys)
    requires Flow(job, s) && Broken(job, s) && s.worker.Working?
    ensures s.worker.bd.previous == s.st.hash
  {
    hide Tracks, NewBlocks;
    InFlightIsNext(job, s);
    assert job.trace[|s.processed|].previous == job.trace[|s.processed| - 1].hash;
  }

  lemma BrokenNext(job: Job, s: Sys)
    requires Sound(job) && Flow(job, s) && Broken(job, s) && s.worker.Working?
    ensures |s.held| == |s.processed| + 1
    ensures s.worker.bd.hash != ZERO && |s.worker.bd.commits| <= TWO_32 && job.cp.height + |s.held| + 1 < HEIGHT_LIMIT
  {
    hide Tracks, NewBlocks, Linked, Authentic, Run;
    InFlightIsNext(job, s);
    assert Fresh(job.cp, job.start, job.trace[|s.processed|].hash);
  }

  lemma ProcessKeeps(job: Job, s: Sys, s': Sys)
    requires Sound(job) && Flow(job, s) && Held(job, s) && Process(job, s, s')
    ensures Held(job, s')
  {
    hide Based, Traced, Flow, Good, Broken, Lost, Accepted, Positioned, Ingested;
    if Good(job, s) {
      if Accepted(job) {
        ProcessAcceptedKeeps(job, s, s');
      } else {
        ProcessReroots(job, s, s');
      }
    } else {
      BrokenKeeps(job, s, s');
    }
  }

  lemma CrashKeeps(job: Job, s: Sys, s': Sys)
    requires Sound(job) && Flow(job, s) && Held(job, s) && Crash(job, s, s')
    ensures Held(job, s')
  {
    hide Linked, Authentic, Run, Agree, Room, Traced, NewBlocks, Tracks, ChainStepped, StoresPrefixOf, HashAt,
         Storable, StoreOf, PositionOf;
    InFlightIsNext(job, s);
    if Good(job, s) {
      PlaceOnPath(job, s, s.worker.bd);
      if Accepted(job) {
        ProcessAccepted(job, s);
        var _ := StepFollows(job.cp, job.digest, s.held, s.worker.bd);
        NoneOffPath(job.cp, job.digest, s.held, s.worker.bd);
        assert false;
      }
      FirstDecides(job, s);
      HeldAtStart(job, s);
      OffPath(job.cp, s.held, s.worker.bd.previous);
      var k :| Agree(job.cp, job.digest, s.st, s.held, k);
      PrefixOnDisk(job.cp, job.digest, s.st, s.held, k);
    } else {
      BrokenOnTip(job, s);
      assert false;
    }
  }

  lemma NoneOffPath(cp: Checkpoint, digest: Bytes -> Hash, bs: seq<Block>, bd: BlockData)
    requires ChainStepped(cp, digest, bs, bd).Some?
    ensures PositionOf(cp, bs, bd.previous).Some?
  {
  }

  lemma OffPath(cp: Checkpoint, bs: seq<Block>, h: Hash)
    requires PositionOf(cp, bs, h).None? && DistinctHashes(cp, bs)
    ensures !OnPath(cp, bs, h)
  {
    hide PositionOf, DistinctHashes, HashAt;
    if j :| 0 <= j <= |bs| && HashAt(cp, bs, j) == h {
      PositionFound(cp, bs, j);
      assert false;
    }
  }

  /** The store of a node holds a prefix of its chain, and all of it after a flush. */
  lemma PrefixOnDisk(cp: Checkpoint, digest: Bytes -> Hash, st: State, bs: seq<Block>, k: nat)
    requires Agree(cp, digest, st, bs, k)
    ensures StoresPrefixOf(st.db, bs) && StoresPrefixOf(Flushed(st).db, bs)
  {
    FlushedFacts(cp, digest, st, bs, k);
    hide MemoryHolds, Storable, Authentic, Linked, StoreOf, Apply;
  }

  lemma FlushKeeps(job: Job, s: Sys, s': Sys)
    requires Held(job, s) && Flush(s, s')
    ensures Held(job, s')
  {
    hide Linked, Authentic, Storable, StoreOf, Apply, Run, MemoryHolds, Rerooted, NewBlocks, Tracks;
    if Good(job, s) {
      var k :| Agree(job.cp, job.digest, s.st, s.held, k);
      AgreeIsUpToFlush(job.cp, job.digest, s.st, s.held, k);
      AgreeFlush(job.cp, job.digest, s.st, s.held, k);
    } else {
      var m :| Tracks(job.cp, s.st, s.held, m);
      TracksFlush(job.cp, s.st, s.held, m);
    }
  }

  /** Steps of the channel and the lock do not touch what the node holds. */
  lemma FrameKeeps(job: Job, s: Sys, s': Sys)
    requires Held(job, s) && s'.st == s.st && s'.held == s.held && s'.processed == s.processed
    requires s.worker.Crashed? <==> s'.worker.Crashed?
    requires AtRest(s'.worker) ==> AtRest(s.worker)
    ensures Held(job, s')
  {
    hide Agree, Run, Tracks, Rerooted, NewBlocks, StoresPrefixOf, OnPath;
  }

  lemma NextKeeps(job: Job, s: Sys, s': Sys)
    requires Sound(job) && Flow(job, s) && Held(job, s) && Next(job, s, s')
    ensures Flow(job, s') && Held(job, s')
  {
    hide Sound, Flow, Held, Process, Crash, Flush;
    FlowKept(job, s, s');
    if Process(job, s, s') {
      ProcessKeeps(job, s, s');
    } else if Crash(job, s, s') {
      CrashKeeps(job, s, s');
    } else if Flush(s, s') {
      FlushKeeps(job, s, s');
    } else {
      FrameKeeps(job, s, s');
    }
  }

  ghost predicate Behaviour(job: Job, b: seq<Sys>)
  {
    && b != [] && Init(job, b[0])
    && forall i | 0 <= i < |b| - 1 :: Next(job, b[i], b[i + 1])
  }

  lemma BehaviourStep(job: Job, b: seq<Sys>, i: nat)
    requires Behaviour(job, b) && i + 1 < |b|
    ensures Next(job, b[i], b[i + 1])
  {
    hide Next;
  }

  lemma BehaviourStart(job: Job, b: seq<Sys>)
    requires Behaviour(job, b)
    ensures b != [] && Init(job, b[0])
  {
  }

  lemma {:induction false} Always(job: Job, b: seq<Sys>, i: nat)
    requires Sound(job) && Behaviour(job, b) && i < |b|
    ensures Flow(job, b[i]) && Held(job, b[i])
    decreases i
  {
    hide Next, Flow, Held, Sound, Behaviour, Init;
    if i == 0 {
      BehaviourStart(job, b);
      InitHolds(job, b[0]);
    } else {
      Always(job, b, i - 1);
      BehaviourStep(job, b, i - 1);
      NextKeeps(job, b[i - 1], b[i]);
    }
  }

  /**
   In every interleaving, when the main goroutine is past the final lock: each sent block was
   processed once and in order, what was sent is a prefix of the trace, the batch is empty and the store
   holds exactly the blocks libcomb holds. If the blocks sent are an accepted run, those are its chain and the
   three views agree on it. If not, they hung on the checkpoint under a non-empty chain, and the
   store holds its first block with all of them on top, which is no chain.
   */
  lemma SyncComplete(job: Job, b: seq<Sys>, i: nat)
    requires Sound(job) && Behaviour(job, b) && i < |b| && b[i].main.Past?
    ensures b[i].processed == b[i].sent <= job.trace
    ensures b[i].st.batch == [] && Storable(b[i].held) && b[i].st.db == StoreOf(b[i].held)
    ensures var r := Run(job.cp, job.digest, job.start, b[i].sent);
            if r.Some?
            then b[i].held == r.value && Agree(job.cp, job.digest, b[i].st, b[i].held, |b[i].held|)
            else && Rerooted(job) && !Chained(job.cp, b[i].held)
                 && b[i].held == job.start[..1] + NewBlocks(job.digest, b[i].sent, job.cp.height + 1)
  {
    hide Behaviour, Sound, NewBlocks, Rerooted, Run, Chained, Agree, Storable, StoreOf, Next;
    Always(job, b, i);
    var s := b[i];
    assert s.processed + [] == s.processed;
    if Good(job, s) {
      StoredAll(job.cp, job.digest, s.st, s.held);
    } else {
      hide HeightsBelow, Apply;
      assert s.held[..|s.held|] == s.held;
      BrokenIsNoRun(job, s);
    }
  }

  lemma BrokenIsNoRun(job: Job, s: Sys)
    requires Sound(job) && Flow(job, s) && Broken(job, s)
    ensures Run(job.cp, job.digest, job.start, s.processed).None? && !Chained(job.cp, s.held)
  {
    hide Tracks, Linked, Authentic, Room, Run, NewBlock, HashAt;
    var cp, bs, bds := job.cp, job.start, s.processed;
    assert bds[0] == job.trace[0];
    if Run(cp, job.digest, bs, bds).Some? {
      RunPrefix(cp, job.digest, bs, bds, 1);
      FirstStep(cp, job.digest, bs, bds);
      var j :| 0 <= j <= |bs| && HashAt(cp, bs, j) == bds[0].previous && (j > 0 || bs == []);
      OnlyCheckpoint(cp, bs, j);
      assert false;
    }
    FirstIsNew(cp, bs);
    NotOnFirst(cp, job.digest, bs, bds, s.held);
  }

  lemma OnlyCheckpoint(cp: Checkpoint, bs: seq<Block>, j: nat)
    requires Linked(cp, bs) && j <= |bs| && HashAt(cp, bs, j) == cp.hash
    ensures j == 0
  {
    SamePosition(cp, bs, j, 0);
  }

  lemma NotOnFirst(cp: Checkpoint, digest: Bytes -> Hash, bs: seq<Block>, bds: seq<BlockData>, held: seq<Block>)
    requires bs != [] && bds != [] && bds[0].previous == cp.hash != bs[0].meta.hash
    requires held == bs[..1] + NewBlocks(digest, bds, cp.height + 1)
    ensures !Chained(cp, held)
  {
    assert held[1] == NewBlocks(digest, bds, cp.height + 1)[0];
    assert held[1].meta.previous == cp.hash != HashAt(cp, held, 1);
  }

  /** A crash loses nothing: no block was processed, and the store still holds a prefix of the chain before. */
  lemma SyncCrash(job: Job, b: seq<Sys>, i: nat)
    requires Sound(job) && Behaviour(job, b) && i < |b| && b[i].worker.Crashed?
    ensures b[i].processed == [] && StoresPrefixOf(b[i].st.db, job.start)
    ensures job.trace != [] && !OnPath(job.cp, job.start, job.trace[0].previous)
  {
    hide Behaviour, Sound, StoresPrefixOf, OnPath, Next;
    Always(job, b, i);
  }

  // ---------------------------------------------------------------- progress

  function Rank(job: Job, s: Sys): nat
    requires |s.sent| <= |job.trace|
  {
    2 * (|job.trace| - |s.sent|)
    + (match s.worker case Receiving => 3 case Working(_) => 4 case Draining => 2 case Written => 1 case Finished => 0 case Crashed => 0)
    + (match s.main case Sending(_) => 2 case Returned => 1 case Past => 0)
  }

  /** Every step brings the end nearer. */
  lemma RankDecreases(job: Job, s: Sys, s': Sys)
    requires Flow(job, s) && Flow(job, s') && Next(job, s, s')
    ensures Rank(job, s') < Rank(job, s)
  {
    hide Ingested, Positioned, PositionOf, Flushed;
  }

  /** No interleaving gets stuck before the final lock is taken, unless by a crash. */
  lemma NoDeadlock(job: Job, s: Sys)
    requires Sound(job) && Flow(job, s) && Held(job, s) && !s.main.Past? && !s.worker.Crashed?
    ensures exists s' :: Next(job, s, s')
  {
    hide Agree, Run, Linked, Ingested, Positioned, Sound, Tracks, NewBlocks, Rerooted, Place;
    if s.worker.Working? {
      var q := Place(job, s, s.worker.bd);
      LibraryHolds(job, s);
      if q.Some? {
        var n := Step.Loaded(|s.held|, q.value);
        var s' := s.(
          worker := Receiving,
          processed := s.processed + [s.worker.bd],
          st := Ingested(job.digest, Positioned(job.cp, s.st, s.held, q.value), s.worker.bd),
          held := s.held[..n] + [NewBlock(job.digest, s.worker.bd, job.cp.height + n + 1)]);
        assert Process(job, s, s');
        assert Next(job, s, s');
      } else {
        var s' := s.(worker := Crashed, st := if s.worker.bd.previous in s.st.chain then Flushed(s.st) else s.st);
        assert Crash(job, s, s');
        assert Next(job, s, s');
      }
    } else if s.main.Sending? {
      assert Next(job, s, s.(main := Returned, closed := true));
    } else if s.worker.Receiving? {
      assert Next(job, s, s.(worker := Draining));
    } else if s.worker.Draining? {
      assert Next(job, s, s.(worker := Written, st := Flushed(s.st)));
    } else if s.worker.Written? {
      assert Next(job, s, s.(worker := Finished, unlocked := true));
    } else {
      assert Next(job, s, s.(main := Past));
    }
  }

  lemma LibraryHolds(job: Job, s: Sys)
    requires Held(job, s) && !s.worker.Crashed?
    ensures |s.st.lib| == |s.held|
  {
    hide Run, Linked, Authentic, ChainHolds, StoreHolds, Storable, Rerooted, NewBlocks, StoreOf, Apply;
  }

  /** So every interleaving is short: at most five steps more than two for each traced block. */
  lemma {:induction false} BehaviourBound(job: Job, b: seq<Sys>, i: nat)
    requires Sound(job) && Behaviour(job, b) && i < |b|
    ensures |b[i].sent| <= |job.trace| && i + Rank(job, b[i]) <= 2 * |job.trace| + 5
    decreases i
  {
    hide Next, Held, Sound, Flow, Rank, Behaviour, Init;
    Always(job, b, i);
    RankBound(job, b[i]);
    if i == 0 {
      BehaviourStart(job, b);
      InitialRank(job, b[0]);
    } else {
      BehaviourBound(job, b, i - 1);
      Always(job, b, i - 1);
      BehaviourStep(job, b, i - 1);
      RankDecreases(job, b[i - 1], b[i]);
    }
  }

  lemma RankBound(job: Job, s: Sys)
    requires Flow(job, s)
    ensures |s.sent| <= |job.trace|
  {
  }

  lemma InitialRank(job: Job, s: Sys)
    requires Init(job, s)
    ensures |s.sent| <= |job.trace| && Rank(job, s) == 2 * |job.trace| + 5
  {
    hide Agree;
  }

  // ---------------------------------------------------------------- from a trace to the new tip

  /** The blocks a producer sends for a traced chain. */
  function BlocksOf(blocks: RawData, chain: seq<Hash>): (r: seq<BlockData>)
    requires forall i | 0 <= i < |chain| :: chain[i] in blocks
    ensures |r| == |chain|
  {
    seq(|chain|, i requires 0 <= i < |chain| => blocks[chain[i]])
  }

  /** Ranks go down along the node's own map, which gives loaded blocks the parents they name. */
  ghost predicate MapFits(chain: map<Hash, Hash>, root: Hash, blocks: RawData, rank: Hash -> nat)
  {
    forall h {:trigger ParentFits(chain, blocks, rank, h)} | h in chain && h != root :: ParentFits(chain, blocks, rank, h)
  }

  ghost predicate ParentFits(chain: map<Hash, Hash>, blocks: RawData, rank: Hash -> nat, h: Hash)
    requires h in chain
  {
    rank(chain[h]) < rank(h) && (h in blocks ==> blocks[h].previous == chain[h])
  }

  /**
   Against the node's own map, where a known block has a known parent, the tracers return the same list
   exactly if the target is unknown and its chain is loaded, or known and not loaded, or the checkpoint.
   */
  lemma NodeTracersAgree(cp: Checkpoint, digest: Bytes -> Hash, st: State, bs: seq<Block>, k: nat,
                         blocks: RawData, remote: Parents, rank: Hash -> nat, target: Hash)
    requires Agree(cp, digest, st, bs, k) && MapFits(st.chain, cp.hash, blocks, rank)
    requires Acyclic(ParentsOf(blocks), rank) && Acyclic(remote, rank) && Extends(remote, ParentsOf(blocks))
    ensures RestResult(remote, st.chain, rank, target) == Some(DirectResult(blocks, st.chain, rank, target)) <==>
            if target in st.chain then target !in blocks || target == cp.hash
            else PathBack(ParentsOf(blocks), st.chain, rank, target).Some?
  {
    hide Linked, Authentic, StoreHolds, Storable, Acyclic, Extends, PathBack, RestResult, DirectResult;
    forall h | h in st.chain && h != cp.hash ensures LinkedDown(st.chain, blocks, rank, h) {
      assert ParentKnown(st.chain, h) && ParentFits(st.chain, blocks, rank, h);
    }
    TracersAgreeGrounded(blocks, remote, st.chain, cp.hash, rank, target);
  }

  /** What a tracer finds against the node's own history is a trace in the sense of the run. */
  lemma TraceFeeds(cp: Checkpoint, digest: Bytes -> Hash, st: State, bs: seq<Block>, k: nat,
                   blocks: RawData, rank: Hash -> nat, chain: seq<Hash>, target: Hash)
    requires Agree(cp, digest, st, bs, k) && Filed(blocks) && Acyclic(ParentsOf(blocks), rank)
    requires Connects(ParentsOf(blocks), st.chain, chain, target) && ZERO !in chain
    ensures forall i | 0 <= i < |chain| :: chain[i] in blocks
    ensures var bds := BlocksOf(blocks, chain);
            Linked(cp, bs) && Traced(cp, bs, bds) && bds[0].previous in st.chain && bds[|bds| - 1].hash == target
  {
    ConnectedBlocks(blocks, st.chain, chain, target);
    var bds := BlocksOf(blocks, chain);
    forall i | 0 <= i < |bds| ensures Fresh(cp, bs, bds[i].hash) {
      assert chain[i] in chain;
      UnknownIsFresh(st.chain, cp, bs, chain[i]);
    }
    hide Agree, Acyclic, Connects, Filed, Fresh, BlocksOf;
    forall i, j | 0 <= i < j < |bds| ensures bds[i].hash != bds[j].hash {
      ConnectsRank(ParentsOf(blocks), st.chain, rank, chain, target, i, j);
    }
    LinkedOfAgree(cp, digest, st, bs, k);
  }

  lemma ConnectedBlocks(blocks: RawData, history: History, chain: seq<Hash>, target: Hash)
    requires Filed(blocks) && Connects(ParentsOf(blocks), history, chain, target)
    ensures forall i | 0 <= i < |chain| :: chain[i] in blocks && chain[i] !in history
    ensures var bds := BlocksOf(blocks, chain);
            && bds != [] && bds[0].previous in history && bds[|bds| - 1].hash == target
            && (forall i | 0 <= i < |bds| :: bds[i].hash == chain[i])
            && (forall i | 0 < i < |bds| :: bds[i].previous == bds[i - 1].hash)
  {
    assert forall i | 0 <= i < |chain| :: chain[i] in ParentsOf(blocks);
    forall i | 0 < i < |chain| ensures blocks[chain[i]].previous == chain[i - 1] {
      assert ParentsOf(blocks)[chain[i - 1 + 1]] == chain[i - 1];
    }
  }

  lemma UnknownIsFresh(chain: map<Hash, Hash>, cp: Checkpoint, bs: seq<Block>, h: Hash)
    requires ChainHolds(chain, cp, bs) && h !in chain && h != ZERO
    ensures Fresh(cp, bs, h)
  {
    forall i | 0 <= i <= |bs| ensures h != HashAt(cp, bs, i) {
      if i > 0 { StepDown(chain, cp, bs, i); }
    }
  }

  /**
   A whole sync to an unknown target: the run is accepted exactly if the known ancestor is on
   the active chain and not the checkpoint under a non-empty chain; then the result is the old
   chain cut at the ancestor followed by the traced blocks, and its tip is the target.
   */
  lemma SyncReachesTarget(cp: Checkpoint, digest: Bytes -> Hash, st: State, bs: seq<Block>, k: nat,
                          blocks: RawData, rank: Hash -> nat, chain: seq<Hash>, target: Hash)
    requires Agree(cp, digest, st, bs, k) && Filed(blocks) && Acyclic(ParentsOf(blocks), rank)
    requires Connects(ParentsOf(blocks), st.chain, chain, target) && ZERO !in chain
    ensures forall i | 0 <= i < |chain| :: chain[i] in blocks
    ensures var bds := BlocksOf(blocks, chain);
            && bds != []
            && (Run(cp, digest, bs, bds).Some? <==>
                  exists j :: 0 <= j <= |bs| && HashAt(cp, bs, j) == bds[0].previous && (j > 0 || bs == []))
            && forall j | 0 <= j <= |bs| && HashAt(cp, bs, j) == bds[0].previous && (j > 0 || bs == []) ::
                  && Run(cp, digest, bs, bds) == Some(bs[..j] + NewBlocks(digest, bds, cp.height + j))
                  && Tip(cp, bs[..j] + NewBlocks(digest, bds, cp.height + j)) == target
  {
    TraceFeeds(cp, digest, st, bs, k, blocks, rank, chain, target);
    hide Agree, Linked, Connects, Acyclic, Filed, Run, Tip, NewBlocks, BlocksOf, HashAt;
    var bds := BlocksOf(blocks, chain);
    assert bds != [] && bds[..|bds|] == bds;
    hide Traced;
    SyncAccepted(cp, digest, bs, bds);
    forall j | 0 <= j <= |bs| && HashAt(cp, bs, j) == bds[0].previous && (j > 0 || bs == [])
      ensures Run(cp, digest, bs, bds) == Some(bs[..j] + NewBlocks(digest, bds, cp.height + j))
      ensures Tip(cp, bs[..j] + NewBlocks(digest, bds, cp.height + j)) == target
    {
      SyncRun(cp, digest, bs, bds, j, |bds|);
    }
  }
}
