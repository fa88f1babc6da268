/** What the invariant means over whole runs, whatever the node, the operator, the consumer and
    crashes do within their bounds. */
module Safety {
  import opened Store
  import opened ReceiverSpec
  import opened Uint32
  import opened TableProperties
  import opened Runs
  import opened Invariant
  import opened AbiHistory

  lemma RunFromInitial(valid: Bytes -> bool, w0: World, steps: seq<Step>)
    requires Initial(valid, w0) && EnabledRun(valid, w0, steps)
    ensures Inv(valid, Run(valid, w0, steps))
  {
    InitialInv(valid, w0);
    RunKeeps(valid, w0, steps);
  }

  // ---- Replay ----

  /** After any run of blocks, forks, acknowledgements, failures and restarts, the four tables
      are those of a replay of the surviving messages alone; and what a restart would find is
      the replay of those up to the committed height. */
  lemma ReplayRefinement(valid: Bytes -> bool, w0: World, steps: seq<Step>)
    requires Initial(valid, w0) && EnabledRun(valid, w0, steps)
    ensures var w := Run(valid, w0, steps);
            && w.s.db.current == Replay(valid, w0.init, w.chain)
            && Reverted(w) == Replay(valid, w0.init, Below(w.chain, w.committed + 1))
  {
    hide Inv, Initial, EnabledRun, Run, Replay, Below, DbOk, ChainOk, LibAfter;
    RunFromInitial(valid, w0, steps);
    RunKeepsInit(valid, w0, steps);
    var w := Run(valid, w0, steps);
    CommittedDb(valid, w);
    InvChain(valid, w);
    DbHolds(valid, w.init, w.base, Below(w.chain, w.committed + 1), w.s.db.RollbackTo(w.s.db.Floor()));
  }

  lemma {:induction false} RunKeepsInit(valid: Bytes -> bool, w: World, steps: seq<Step>)
    requires EnabledRun(valid, w, steps)
    ensures Run(valid, w, steps).init == w.init && Run(valid, w, steps).base == w.base
    decreases |steps|
  {
    if steps != [] {
      assert Next(valid, w, steps[0]).init == w.init && Next(valid, w, steps[0]).base == w.base;
      RunKeepsInit(valid, Next(valid, w, steps[0]), steps[1..]);
    }
  }

  // ---- Rollback ----

  /** No message can make the rollback loop run forever, meet an undo stack in the way, an
      irreversible block that went back or a number already taken; and the refusal to roll back
      to revision 0 is met exactly by a fork at block 1. */
  lemma NothingUnexpected(valid: Bytes -> bool, w0: World, steps: seq<Step>, m: Block)
    requires Initial(valid, w0) && EnabledRun(valid, w0, steps)
    requires Enabled(Run(valid, w0, steps), Receive(m))
    ensures var w := Run(valid, w0, steps);
            var outcome := ReceiveSpec(valid, w.s, m).outcome;
            && RollbackEnds(w.s.db, m.num)
            && outcome !in {LibWentBack, RevisionRefused, BelowLib, Hangs, DuplicateBlock}
            && (outcome == NoUndoStack <==> m.num == 1 && m.num <= w.s.head)
  {
    RunFromInitial(valid, w0, steps);
    var w := Run(valid, w0, steps);
    ReceiveExpected(valid, w, m);
  }

  lemma ReceiveExpected(valid: Bytes -> bool, w: World, m: Block)
    requires Inv(valid, w) && Enabled(w, Receive(m))
    ensures var outcome := ReceiveSpec(valid, w.s, m).outcome;
            && RollbackEnds(w.s.db, m.num)
            && outcome !in {LibWentBack, RevisionRefused, BelowLib, Hangs, DuplicateBlock}
            && (outcome == NoUndoStack <==> m.num == 1 && m.num <= w.s.head)
  {
    hide Replay, Copies, StartOk, ChainOk, LibAfter, Below, DbOk, Coherent, Admit, Persist, Gated;
    KeptChain(valid, w, m);
    AdmitOk(valid, w, m);
    var e := Admit(w.s.(reading := false), m);
    if e.outcome == Done {
      PersistFree(valid, w.init, w.base, Below(w.chain, m.num), e.state, m);
      PersistMemory(valid, e.state, m);
    }
    EndsAt(valid, w, m);
  }

  lemma EndsAt(valid: Bytes -> bool, w: World, m: Block)
    requires Inv(valid, w) && Enabled(w, Receive(m))
    ensures RollbackEnds(w.s.db, m.num)
  {
    hide Replay, Copies, StartOk, ChainOk, LibAfter, Below, Coherent, Gated;
    KeptChain(valid, w, m);
  }

  /** A fork lands on the revision just below it, and brings back the tables as they were
      after the block before it. */
  lemma ForkLands(valid: Bytes -> bool, w0: World, steps: seq<Step>, m: Block)
    requires Initial(valid, w0) && EnabledRun(valid, w0, steps)
    requires var w := Run(valid, w0, steps); Enabled(w, Receive(m)) && 1 < m.num <= w.s.head
    ensures var w := Run(valid, w0, steps);
            var back := Admit(w.s.(reading := false), m).state.db;
            && back.revision == m.num - 1
            && back.current == Replay(valid, w.init, Below(w.chain, m.num))
            && back.Floor() == w.s.db.Floor()
  {
    RunFromInitial(valid, w0, steps);
    var w := Run(valid, w0, steps);
    AdmitFork(valid, w, m);
    DbHolds(valid, w.init, w.base, Below(w.chain, m.num), Admit(w.s.(reading := false), m).state.db);
    KeptChain(valid, w, m);
    assert w.chain != [] && w.s.db.revision == w.base + |w.chain|;
  }

  /** A fork of the network announces one less than the number of blocks it drops. */
  lemma NetworkForkDepth(valid: Bytes -> bool, w0: World, steps: seq<Step>, m: Block)
    requires Initial(valid, w0) && EnabledRun(valid, w0, steps)
    requires var w := Run(valid, w0, steps); Enabled(w, Receive(m)) && 1 < m.num <= w.s.head
    ensures var w := Run(valid, w0, steps);
            var dropped := |w.chain| - |Below(w.chain, m.num)|;
            && 0 < dropped
            && Admit(w.s.(reading := false), m).events == [ForkAt(m.num, dropped - 1, Network, m.lib)]
  {
    hide Inv, Initial, EnabledRun, Run, Admit, Below;
    RunFromInitial(valid, w0, steps);
    var w := Run(valid, w0, steps);
    KeptChain(valid, w, m);
    AdmitFork(valid, w, m);
  }

  /** A restart announces exactly the number of blocks it drops, at the first of them. */
  lemma RestartForkDepth(valid: Bytes -> bool, w0: World, steps: seq<Step>, cfg: Config)
    requires Initial(valid, w0) && EnabledRun(valid, w0, steps)
    requires Enabled(Run(valid, w0, steps), Start(cfg))
    ensures var w := Run(valid, w0, steps);
            var e := StartSpec(cfg, w.s.db);
            var undone := |w.chain| - |Below(w.chain, w.committed + 1)|;
            && 0 <= undone
            && (e.outcome == Done ==>
              if undone == 0 then forall f :: f in e.events ==> f.ForkAt? && f.reason == Resync
              else
                && e.events != []
                && e.events[|e.events| - 1] == ForkAt(w.committed + 1, undone, Restart, e.state.irreversible))
  {
    hide Inv, Initial, EnabledRun, Run, Enabled, StartSpec, Below;
    RunFromInitial(valid, w0, steps);
    var w := Run(valid, w0, steps);
    RestartDepth(valid, w, cfg);
  }

  lemma RestartDepth(valid: Bytes -> bool, w: World, cfg: Config)
    requires Inv(valid, w) && Enabled(w, Start(cfg))
    ensures var e := StartSpec(cfg, w.s.db);
            var undone := |w.chain| - |Below(w.chain, w.committed + 1)|;
            && 0 <= undone
            && (e.outcome == Done ==>
              if undone == 0 then forall f :: f in e.events ==> f.ForkAt? && f.reason == Resync
              else
                && e.events != []
                && e.events[|e.events| - 1] == ForkAt(w.committed + 1, undone, Restart, e.state.irreversible))
  {
    hide Replay, Copies, Coherent, Gated, MemoryOk, DbOk, ChainOk, LibAfter, Below, TablesOk, StartOk;
    CommittedDb(valid, w);
    StartFinds(valid, w, cfg);
  }

  // ---- Commitment ----

  lemma StepIrrevocable(valid: Bytes -> bool, w: World, step: Step)
    requires Inv(valid, w) && Enabled(w, step)
    ensures var w' := Next(valid, w, step);
            var k := w.committed - w.base;
            && 0 <= k <= |w.chain| && k <= |w'.chain|
            && w.committed <= w'.committed && w'.base == w.base
            && w'.chain[..k] == w.chain[..k]
  {
    hide Replay, Copies, StartOk, ChainOk, LibAfter, DbOk, MemoryOk, Below;
    hide StartSpec, ReceiveSpec, StoreSpec, PollSpec, AckSpec, AbiReadySpec;
    CommittedDb(valid, w);
    if step.Receive? || step.DieStoring? {
      KeptChain(valid, w, step.m);
    }
  }

  /** The committed height never falls, and no later fork, failure or restart touches the blocks
      up to it: what a restart may fall back to stays the same replay for ever. */
  lemma {:induction false} Irrevocable(valid: Bytes -> bool, w: World, steps: seq<Step>)
    requires Inv(valid, w) && EnabledRun(valid, w, steps)
    ensures var w' := Run(valid, w, steps);
            var k := w.committed - w.base;
            && w.committed <= w'.committed && w'.base == w.base
            && 0 <= k <= |w.chain| && k <= |w'.chain|
            && w'.chain[..k] == w.chain[..k]
    decreases |steps|
  {
    hide Inv, Next, Enabled;
    if steps == [] {
      CommittedDb(valid, w);
    } else {
      var w1 := Next(valid, w, steps[0]);
      StepKeeps(valid, w, steps[0]);
      StepIrrevocable(valid, w, steps[0]);
      Irrevocable(valid, w1, steps[1..]);
      var k, k1 := w.committed - w.base, w1.committed - w.base;
      var w' := Run(valid, w1, steps[1..]);
      assert w'.chain[..k1][..k] == w'.chain[..k] && w1.chain[..k1][..k] == w1.chain[..k];
    }
  }

  /** A new process resumes at the committed height, which is the running maximum of what was
      both irreversible and, with acknowledgements, acknowledged when blocks were stored. */
  lemma RestartResumes(valid: Bytes -> bool, w0: World, steps: seq<Step>, cfg: Config)
    requires Initial(valid, w0) && EnabledRun(valid, w0, steps)
    requires Enabled(Run(valid, w0, steps), Start(cfg))
    ensures var w := Run(valid, w0, steps);
            && Next(valid, w, Start(cfg)).s.head == w.committed
            && w.committed <= w.lib
  {
    RunFromInitial(valid, w0, steps);
    StartFinds(valid, Run(valid, w0, steps), cfg);
  }

  /** Every process of the run waits for acknowledgements. */
  predicate AckOnly(steps: seq<Step>) {
    forall i :: 0 <= i < |steps| && steps[i].Start? ==> steps[i].cfg.willAck
  }

  ghost predicate AckBound(w: World) {
    && w.committed <= w.ackHigh
    && (!w.s.stopped ==> w.s.cfg.willAck && w.s.acked <= w.ackHigh)
  }

  lemma StepAckBound(valid: Bytes -> bool, w: World, step: Step)
    requires Inv(valid, w) && Enabled(w, step) && AckBound(w)
    requires step.Start? ==> step.cfg.willAck
    ensures AckBound(Next(valid, w, step))
  {
    hide Inv, Below, Handle, Register, ReceiveSpec;
    match step
    case Receive(m) => ReceiveAcked(valid, w.s, m);
    case _ =>
  }

  /** With acknowledgements, nothing is committed beyond the highest acknowledgement taken in,
      or the head some process started from. */
  lemma {:induction false} CommittedIsAcked(valid: Bytes -> bool, w: World, steps: seq<Step>)
    requires Inv(valid, w) && EnabledRun(valid, w, steps) && AckBound(w) && AckOnly(steps)
    ensures Run(valid, w, steps).committed <= Run(valid, w, steps).ackHigh
    decreases |steps|
  {
    hide Inv, Next, Enabled;
    if steps != [] {
      StepKeeps(valid, w, steps[0]);
      StepAckBound(valid, w, steps[0]);
      CommittedIsAcked(valid, Next(valid, w, steps[0]), steps[1..]);
    }
  }

  // ---- Flow control ----

  /** While a process runs with acknowledgements: the unsigned lag never wraps; it stays within
      the limit unless a fork is being waited for; during that wait the head is the fork or the
      block before it, the acknowledged height lies below the fork, and nothing is read. */
  lemma BoundedLag(valid: Bytes -> bool, w0: World, steps: seq<Step>)
    requires Initial(valid, w0) && EnabledRun(valid, w0, steps)
    ensures var s := Run(valid, w0, steps).s;
            !s.stopped && s.cfg.willAck ==>
              && s.acked <= s.head && Sub32(s.head, s.acked) == s.head - s.acked
              && (s.forkedAt == 0 ==> s.head - s.acked <= s.cfg.maxUnconfirmed)
              && (s.forkedAt > 0 ==>
                    && s.acked < s.forkedAt
                    && (s.head == s.forkedAt || s.head + 1 == s.forkedAt)
                    && !s.reading)
  {
    RunFromInitial(valid, w0, steps);
  }

  /** After a fork, nothing but the acknowledgement of the block before it lets the receiver
      take in another block, let alone another fork; and only its end touches what it has. */
  lemma {:induction false} ForkGate(valid: Bytes -> bool, w: World, steps: seq<Step>)
    requires EnabledRun(valid, w, steps)
    requires w.s.cfg.willAck && 0 < w.s.forkedAt && !w.s.reading
    requires forall i :: 0 <= i < |steps| ==> !steps[i].Start? && steps[i] != Ack(w.s.forkedAt - 1)
    ensures forall i :: 0 <= i < |steps| ==> !steps[i].Receive? && !steps[i].DieStoring?
    ensures var w' := Run(valid, w, steps);
            && w'.s.head == w.s.head && w'.s.forkedAt == w.s.forkedAt && !w'.s.reading
            && (SameProcess(steps) ==> w'.chain == w.chain)
    decreases |steps|
  {
    if steps != [] {
      var w1 := Next(valid, w, steps[0]);
      assert w1.s.cfg == w.s.cfg && w1.s.forkedAt == w.s.forkedAt && w1.s.head == w.s.head && !w1.s.reading;
      assert !steps[0].Revert? ==> w1.chain == w.chain;
      ForkGate(valid, w1, steps[1..]);
    }
  }

  // ---- The end block ----

  /** The head stays below the end block. */
  lemma HeadBelowEnd(valid: Bytes -> bool, w0: World, steps: seq<Step>)
    requires Initial(valid, w0) && EnabledRun(valid, w0, steps)
    ensures var s := Run(valid, w0, steps).s;
            !s.stopped ==> s.head < s.cfg.endBlock
  {
    RunFromInitial(valid, w0, steps);
  }

  /** Stopping at the end block commits everything: a later process starts at the same head
      with nothing to undo, and if any block was ever stored it announces no fork. */
  lemma CleanEnd(valid: Bytes -> bool, w0: World, steps: seq<Step>, queueFull: bool, cfg: Config)
    requires Initial(valid, w0) && EnabledRun(valid, w0, steps)
    requires var w := Run(valid, w0, steps);
             && Enabled(w, Poll(queueFull)) && PollSpec(w.s, queueFull).outcome == EndReached
             && Enabled(Next(valid, w, Poll(queueFull)), Start(cfg))
    ensures var w := Run(valid, w0, steps);
            var ended := Next(valid, w, Poll(queueFull));
            var again := Next(valid, ended, Start(cfg));
            && w.s.head == Sub32(w.s.cfg.endBlock, 1)
            && ended.s.db.stack == [] && ended.committed == w.s.head
            && again.s.head == w.s.head && again.chain == w.chain
            && (w.chain != [] || w.init.state != [] ==> again.pending == [])
  {
    RunFromInitial(valid, w0, steps);
    EndsClean(valid, Run(valid, w0, steps), queueFull, cfg);
  }

  lemma EndsCommitted(valid: Bytes -> bool, w: World, queueFull: bool)
    requires Inv(valid, w) && Enabled(w, Poll(queueFull)) && PollSpec(w.s, queueFull).outcome == EndReached
    ensures var ended := Next(valid, w, Poll(queueFull));
            && w.s.head == w.base + |w.chain|
            && ended.s.db.stack == [] && ended.committed == w.s.head && ended.chain == w.chain
            && ended.base == w.base && ended.init == w.init
  {
    hide Replay, Copies, Coherent, Gated, TablesOk, ChainOk, LibAfter, LastRow;
    RunningHead(valid, w);
  }

  lemma StartsClean(valid: Bytes -> bool, w: World, cfg: Config)
    requires Inv(valid, w) && Enabled(w, Start(cfg)) && w.s.db.stack == []
    ensures var again := Next(valid, w, Start(cfg));
            && again.s.head == w.committed && again.chain == w.chain
            && (w.chain != [] || w.init.state != [] ==> again.pending == [])
  {
    hide Replay, Copies, Coherent, MemoryOk, TablesOk, ChainOk, LibAfter, Below, DbOk;
    CommittedDb(valid, w);
    StartFinds(valid, w, cfg);
    assert w.chain[..|w.chain|] == w.chain;
  }

  lemma EndsClean(valid: Bytes -> bool, w: World, queueFull: bool, cfg: Config)
    requires Inv(valid, w) && Enabled(w, Poll(queueFull)) && PollSpec(w.s, queueFull).outcome == EndReached
    requires Enabled(Next(valid, w, Poll(queueFull)), Start(cfg))
    ensures var ended := Next(valid, w, Poll(queueFull));
            var again := Next(valid, ended, Start(cfg));
            && ended.s.db.stack == [] && ended.committed == w.s.head
            && again.s.head == w.s.head && again.chain == w.chain
            && (w.chain != [] || w.init.state != [] ==> again.pending == [])
  {
    hide Inv, Next, Enabled, PollSpec;
    PollKeeps(valid, w, queueFull);
    EndsCommitted(valid, w, queueFull);
    StartsClean(valid, Next(valid, w, Poll(queueFull)), cfg);
  }

  /** At the last block with an irreversible block still below it, no block is read any more, so
      neither changes until another process starts. */
  lemma {:induction false} EndNeedsIrreversible(valid: Bytes -> bool, w: World, steps: seq<Step>)
    requires EnabledRun(valid, w, steps) && SameProcess(steps)
    requires AtLastBlock(w.s) && w.s.irreversible < w.s.head && !w.s.reading
    ensures var w' := Run(valid, w, steps);
            w'.s.head == w.s.head && w'.s.irreversible == w.s.irreversible && w'.chain == w.chain
            && w'.committed == w.committed && !ReachesEnd(valid, w, steps)
    decreases |steps|
  {
    if steps != [] {
      var w1 := Next(valid, w, steps[0]);
      assert w1.s.head == w.s.head && w1.s.irreversible == w.s.irreversible && w1.s.cfg == w.s.cfg
             && !w1.s.reading && w1.chain == w.chain && w1.committed == w.committed;
      EndNeedsIrreversible(valid, w1, steps[1..]);
    }
  }

  /** Whatever happens, it happens to the process at hand. */
  predicate SameProcess(steps: seq<Step>) {
    forall i :: 0 <= i < |steps| ==> !steps[i].Start? && !steps[i].Revert?
  }

  /** Some step of the run stops the process at its end block. */
  predicate ReachesEnd(valid: Bytes -> bool, w: World, steps: seq<Step>)
    decreases |steps|
  {
    steps != [] &&
    ((steps[0].Poll? && PollSpec(w.s, steps[0].queueFull).outcome == EndReached)
     || ReachesEnd(valid, Next(valid, w, steps[0]), steps[1..]))
  }

  /** The process at hand can come to its end by itself. */
  ghost predicate CanEnd(valid: Bytes -> bool, w: World) {
    exists more :: EnabledRun(valid, w, more) && SameProcess(more) && ReachesEnd(valid, w, more)
  }

  lemma PollEnds(valid: Bytes -> bool, w: World)
    requires !w.s.stopped && !w.s.reading && FinishedAtEnd(w.s)
    ensures EnabledRun(valid, w, [Poll(false)]) && ReachesEnd(valid, w, [Poll(false)])
  {
    assert [Poll(false)][1..] == [];
  }

  /** An acknowledgement of the head, when none is awaited after a fork, leaves the process to
      its end. */
  lemma AckEnds(valid: Bytes -> bool, w: World)
    requires !w.s.stopped && !w.s.reading && AtLastBlock(w.s) && w.s.head <= w.s.irreversible
    requires w.s.cfg.willAck && w.s.forkedAt == 0 && w.s.acked <= w.s.head
    ensures EnabledRun(valid, w, [Ack(w.s.head), Poll(false)]) && ReachesEnd(valid, w, [Ack(w.s.head), Poll(false)])
  {
    var w1 := Next(valid, w, Ack(w.s.head));
    PollEnds(valid, w1);
    assert [Ack(w.s.head), Poll(false)][1..] == [Poll(false)];
  }

  /** The acknowledgements still owed, of the block before a fork and of the head, and a last
      decision between reading and pausing. */
  function LastSteps(s: State): seq<Step> {
    if !s.cfg.willAck then [Poll(false)]
    else if s.forkedAt == 0 then [Ack(s.head), Poll(false)]
    else [Ack(s.forkedAt - 1), Ack(s.head), Poll(false)]
  }

  /** The node having declared the last block irreversible, the acknowledgements still owed are
      all it takes. */
  lemma EndsWhenIrreversible(valid: Bytes -> bool, w: World)
    requires Inv(valid, w) && !w.s.stopped && AtLastBlock(w.s) && w.s.head <= w.s.irreversible
    ensures EnabledRun(valid, w, LastSteps(w.s)) && SameProcess(LastSteps(w.s))
    ensures ReachesEnd(valid, w, LastSteps(w.s))
  {
    hide Replay, Copies, StartOk, ChainOk, LibAfter, DbOk, Coherent, LastRow, EnabledRun, ReachesEnd;
    assert Gated(w.s) && !w.s.reading;
    if !w.s.cfg.willAck {
      PollEnds(valid, w);
    } else if w.s.forkedAt == 0 {
      AckEnds(valid, w);
    } else {
      ForkAckEnds(valid, w);
    }
  }

  lemma ForkAckEnds(valid: Bytes -> bool, w: World)
    requires !w.s.stopped && !w.s.reading && AtLastBlock(w.s) && w.s.head <= w.s.irreversible
    requires w.s.cfg.willAck && 0 < w.s.forkedAt <= w.s.head + 1
    ensures EnabledRun(valid, w, LastSteps(w.s)) && ReachesEnd(valid, w, LastSteps(w.s))
  {
    hide ReachesEnd;
    var more := LastSteps(w.s);
    var w1 := Next(valid, w, more[0]);
    AckEnds(valid, w1);
    assert more[1..] == [Ack(w1.s.head), Poll(false)];
    assert ReachesEnd(valid, w, more) by { EndsLater(valid, w, more); }
  }

  lemma EndsLater(valid: Bytes -> bool, w: World, steps: seq<Step>)
    requires steps != [] && ReachesEnd(valid, Next(valid, w, steps[0]), steps[1..])
    ensures ReachesEnd(valid, w, steps)
  {
  }

  /** In every reachable state at the last block, the process can still come to its end by
      itself if and only if that block is irreversible; if it is not, no block is read any more
      and nothing the node, the consumer or the exporter does will change that. */
  lemma EndsIff(valid: Bytes -> bool, w0: World, steps: seq<Step>)
    requires Initial(valid, w0) && EnabledRun(valid, w0, steps)
    requires var w := Run(valid, w0, steps); !w.s.stopped && AtLastBlock(w.s)
    ensures var w := Run(valid, w0, steps);
            CanEnd(valid, w) <==> w.s.head <= w.s.irreversible
  {
    RunFromInitial(valid, w0, steps);
    var w := Run(valid, w0, steps);
    EndCase(valid, w);
  }

  lemma EndCase(valid: Bytes -> bool, w: World)
    requires Inv(valid, w) && !w.s.stopped && AtLastBlock(w.s)
    ensures CanEnd(valid, w) <==> w.s.head <= w.s.irreversible
  {
    hide Replay, Copies, StartOk, ChainOk, LibAfter, DbOk, Coherent, LastRow, EnabledRun, ReachesEnd;
    if w.s.head <= w.s.irreversible {
      EndsWhenIrreversible(valid, w);
    } else {
      assert Gated(w.s) && !w.s.reading;
      forall more | EnabledRun(valid, w, more) && SameProcess(more) ensures !ReachesEnd(valid, w, more) {
        EndNeedsIrreversible(valid, w, more);
      }
    }
  }

  // ---- Received blocks ----

  /** Once something was received, the positions sent to the node are the surviving blocks
      [lo, head] in order, lo being the last irreversible block or the one after it; or none
      when the head is irreversible. Before that there are none. */
  predicate SentInOrder(w: World) {
    var sent := RowsBetween(w.s.db.current.blocks, w.s.irreversible, w.s.head);
    if w.chain == [] && w.init.state == [] then sent == []
    else if w.s.head <= w.s.irreversible then sent == []
    else
      var lo := w.s.head + 1 - |sent|;
      && w.s.irreversible <= lo <= w.s.irreversible + 1
      && (forall i :: 0 <= i < |sent| ==> sent[i].0 == lo + i)
      && (forall i :: 0 <= i < |sent| && w.base < lo + i ==>
            lo + i - w.base <= |w.chain| && sent[i].1 == w.chain[lo + i - w.base - 1].id)
  }

  lemma PositionsSent(valid: Bytes -> bool, w0: World, steps: seq<Step>)
    requires Initial(valid, w0) && EnabledRun(valid, w0, steps)
    ensures var w := Run(valid, w0, steps);
            !w.s.stopped ==> SentInOrder(w)
  {
    hide Inv, Initial, EnabledRun, Run, SentInOrder;
    RunFromInitial(valid, w0, steps);
    var w := Run(valid, w0, steps);
    if !w.s.stopped {
      PositionsOk(valid, w);
    }
  }

  lemma RunningBlocks(valid: Bytes -> bool, w: World)
    requires Inv(valid, w) && !w.s.stopped
    ensures w.s.head == w.base + |w.chain|
    ensures if w.chain == [] && w.init.state == [] then w.s.db.current.blocks == map[]
            else Window(w.s.db.current.blocks, w.s.head, w.s.irreversible)
  {
    hide Copies, Coherent, Gated, ChainOk, Window, AbisUsable, HistoryUpTo;
    RunningHead(valid, w);
    ReplayOk(valid, w.init, w.base, w.chain);
  }

  lemma RunningId(valid: Bytes -> bool, w: World, k: nat)
    requires Inv(valid, w) && !w.s.stopped
    ensures SurvivingId(w.s.db.current.blocks, w.base, w.chain, k)
  {
    hide Copies, Coherent, Gated, ChainOk, StartOk, SurvivingId, LibAfter;
    ReplayIds(valid, w.init, w.base, w.chain, k);
  }

  lemma PositionsOk(valid: Bytes -> bool, w: World)
    requires Inv(valid, w) && !w.s.stopped
    ensures SentInOrder(w)
  {
    hide Inv;
    var blocks := w.s.db.current.blocks;
    RunningBlocks(valid, w);
    if w.chain == [] && w.init.state == [] {
      if w.s.irreversible <= w.s.head {
        RowsSkip(blocks, w.s.irreversible, w.s.irreversible - 1, w.s.head);
      }
    } else {
      var lo := if w.s.head <= w.s.irreversible then w.s.head + 1
                else if w.s.irreversible in blocks then w.s.irreversible else w.s.irreversible + 1;
      if w.s.irreversible <= lo {
        RowsContiguous(blocks, w.s.irreversible, lo, w.s.head);
        var sent := RowsBetween(blocks, w.s.irreversible, w.s.head);
        forall i | 0 <= i < |sent| && w.base < lo + i
          ensures lo + i - w.base <= |w.chain| && sent[i].1 == w.chain[lo + i - w.base - 1].id
        {
          RunningId(valid, w, lo + i);
        }
      }
    }
  }

  // ---- The ABI cache ----

  /** In a running process an ABI is ready exactly if the account has a latest ABI, and what is
      then decoded with is that row, through any setabi, clear, fork and restart before. */
  lemma CacheIsCoherent(valid: Bytes -> bool, w0: World, steps: seq<Step>, name: Name)
    requires Initial(valid, w0) && EnabledRun(valid, w0, steps)
    ensures var s := Run(valid, w0, steps).s;
            !s.stopped ==>
              var (s', ready) := AbiReadySpec(valid, s, name);
              && (ready <==> name in s.db.current.abis)
              && (ready ==> name in s'.cache.context && s'.cache.context[name] == s.db.current.abis[name])
              && (!ready ==> name !in s'.cache.context)
              && (ready <==> name in s'.cache.imported)
              && s'.cache.imported - {name} == s.cache.imported - {name}
              && s' == s.(cache := s'.cache)
  {
    hide Initial, EnabledRun, Run, DbOk, ChainOk, StartOk, LibAfter, LastRow;
    RunFromInitial(valid, w0, steps);
    var w := Run(valid, w0, steps);
    if !w.s.stopped {
      AskAbiKeeps(valid, w, name);
    }
  }

  // ---- ABI history ----

  /** The history asked about a block answers later, in the same or another process, as it did
      just after that block, as long as the block is still on the chain; forks beyond it that
      came and went change nothing. */
  lemma HistoryRemembers(valid: Bytes -> bool, w0: World, steps: seq<Step>, more: seq<Step>, a: Name)
    requires Initial(valid, w0) && EnabledRun(valid, w0, steps)
    requires EnabledRun(valid, Run(valid, w0, steps), more)
    requires Run(valid, w0, steps).chain <= Run(valid, Run(valid, w0, steps), more).chain
    ensures var w := Run(valid, w0, steps);
            var later := Run(valid, w, more);
            var height := w0.base + |w.chain|;
            LookUp(later.s.db.current.history, a, height) == LookUp(w.s.db.current.history, a, height)
  {
    hide Inv, Initial, EnabledRun, Run, LookUp, Replay;
    RunFromInitial(valid, w0, steps);
    RunKeepsInit(valid, w0, steps);
    var w := Run(valid, w0, steps);
    RunKeeps(valid, w, more);
    RunKeepsInit(valid, w, more);
    var later := Run(valid, w, more);
    InvChain(valid, w);
    InvChain(valid, later);
    assert later.chain[..|w.chain|] == w.chain;
    TimeTravel(valid, w0.init, w0.base, later.chain, a, w0.base + |w.chain|);
  }

  lemma InvChain(valid: Bytes -> bool, w: World)
    requires Inv(valid, w)
    ensures StartOk(valid, w.init, w.base) && ChainOk(w.init, w.base, w.chain)
    ensures w.s.db.current == Replay(valid, w.init, w.chain)
  {
    hide Replay, Copies, TablesOk, ChainOk, MemoryOk;
  }

  predicate OneRowSteps(steps: seq<Step>) {
    forall i :: 0 <= i < |steps| && (steps[i].Receive? || steps[i].DieStoring?) ==> OneRowEach(steps[i].m.rows)
  }

  ghost predicate OneRowChain(chain: seq<Block>) {
    forall i :: 0 <= i < |chain| ==> OneRowEach(chain[i].rows)
  }

  lemma {:induction false} BelowOneRow(chain: seq<Block>, num: nat)
    requires OneRowChain(chain)
    ensures OneRowChain(Below(chain, num))
  {
    hide OneRowEach;
    if chain != [] {
      BelowOneRow(chain[..|chain| - 1], num);
    }
  }

  lemma {:induction false} RunOneRow(valid: Bytes -> bool, w: World, steps: seq<Step>)
    requires OneRowChain(w.chain) && OneRowSteps(steps)
    ensures OneRowChain(Run(valid, w, steps).chain)
    decreases |steps|
  {
    hide OneRowEach, Below, StartSpec, ReceiveSpec, StoreSpec, PollSpec, AckSpec, AbiReadySpec, Handle;
    if steps != [] {
      match steps[0] {
        case Receive(m) => BelowOneRow(w.chain, m.num);
        case DieStoring(m) => BelowOneRow(w.chain, m.num);
        case Start(_) => BelowOneRow(w.chain, w.committed + 1);
        case _ =>
      }
      RunOneRow(valid, Next(valid, w, steps[0]), steps[1..]);
    }
  }

  /** In every scan from a new database by blocks with at most one row of an account, through
      forks and restarts: the table of latest ABIs is the one the history says is in force. */
  lemma LatestIsInForce(valid: Bytes -> bool, w0: World, steps: seq<Step>, a: Name)
    requires Initial(valid, w0) && EnabledRun(valid, w0, steps)
    requires w0.init == EMPTY_TABLES && OneRowSteps(steps)
    ensures var w := Run(valid, w0, steps);
            Latest(w.s.db.current, a) == InForce(valid, w.s.db.current.history, a, w.base + |w.chain|)
  {
    hide Inv, Initial, EnabledRun, Run, InForce, Replay, OneRowEach;
    assert w0.chain == [] by { InitialChain(valid, w0); }
    RunFromInitial(valid, w0, steps);
    RunKeepsInit(valid, w0, steps);
    RunOneRow(valid, w0, steps);
    var w := Run(valid, w0, steps);
    InvChain(valid, w);
    EmptyDetermined(valid, w.base);
    LatestFromHistory(valid, w.init, w.base, w.chain);
  }

  lemma InitialChain(valid: Bytes -> bool, w: World)
    requires Initial(valid, w)
    ensures w.chain == []
  {
  }
}
