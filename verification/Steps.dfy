/** What each step of a scanning process comes to, told by the surviving chain, the irreversible
    and acknowledged heights and the options. The states are those that keep the invariant, which
    every run from an initial world does (Safety.RunFromInitial). */
module Steps {
  import opened Options
  import opened Chainbase
  import opened Store
  import opened ReceiverSpec
  import opened TableProperties
  import opened Runs
  import opened Invariant
  import opened Safety

  function Head(w: World): nat {
    w.base + |w.chain|
  }

  /** The id of the last surviving block, or of the block a restored database stands at. */
  function HeadId(w: World): BlockId {
    if w.chain != [] then w.chain[|w.chain| - 1].id
    else if w.init.state != [] then w.init.state[0].headId
    else 0
  }

  /** The fields of a running process are those of the last surviving message, else those of
      the restored row, else blank. */
  lemma RunningFields(valid: Bytes -> bool, w: World)
    requires Inv(valid, w) && !w.s.stopped
    ensures w.s.head == Head(w) && w.s.headId == HeadId(w)
    ensures w.chain != [] ==>
              var m := w.chain[|w.chain| - 1];
              m.num == Head(w) && w.s.irreversible == m.lib && w.s.irreversibleId == m.libId
    ensures w.chain == [] && w.init.state != [] ==>
              var row := w.init.state[0];
              row.head == Head(w) && w.s.irreversible == row.irreversible && w.s.irreversibleId == row.irreversibleId
    ensures w.chain == [] && w.init.state == [] ==> w.s.irreversible == 0 && w.s.irreversibleId == 0
  {
    hide Replay, Copies, Coherent, TablesOk, DbOk, Gated;
    RunningHead(valid, w);
  }

  // ---- Receiving ----

  predicate Forks(w: World, m: Block) {
    m.num <= Head(w)
  }

  /** The next block, reversible and beyond both the first head of the scan and block 0, does not
      name the last surviving block as the one before it. */
  predicate Unlinked(w: World, m: Block) {
    && !Forks(w, m) && m.lib < m.num
    && 0 < Head(w) && w.s.cfg.startBlock < Head(w)
    && m.prev != Some(HeadId(w))
  }

  /** How every message a process may get ends. */
  lemma ReceiveOutcome(valid: Bytes -> bool, w: World, m: Block)
    requires Inv(valid, w) && Enabled(w, Receive(m))
    ensures ReceiveSpec(valid, w.s, m).outcome ==
            if Forks(w, m) && m.num == 1 then NoUndoStack
            else if Unlinked(w, m) then PrevMismatch
            else match m.fault
                 case NoFault => Done
                 case InBlock => BlockUnreadable
                 case InDeltas => DeltaUnreadable
                 case InTraces => TraceUnreadable
  {
    hide Inv, Enabled, Admit, Persist, Forks, Unlinked;
    AdmitOutcome(valid, w, m);
    if Admit(w.s.(reading := false), m).outcome == Done {
      PersistOutcome(valid, w, m);
    }
  }

  lemma AdmitOutcome(valid: Bytes -> bool, w: World, m: Block)
    requires Inv(valid, w) && Enabled(w, Receive(m))
    ensures Admit(w.s.(reading := false), m).outcome ==
            if Forks(w, m) && m.num == 1 then NoUndoStack else if Unlinked(w, m) then PrevMismatch else Done
  {
    hide Replay, Copies, StartOk, ChainOk, LibAfter, Below, Coherent, Gated, LastRow, RollbackSpec;
    RunningFields(valid, w);
    KeptChain(valid, w, m);
    AdmitOk(valid, w, m);
  }

  lemma PersistOutcome(valid: Bytes -> bool, w: World, m: Block)
    requires Inv(valid, w) && Enabled(w, Receive(m)) && Admit(w.s.(reading := false), m).outcome == Done
    ensures Persist(valid, Admit(w.s.(reading := false), m).state, m).outcome ==
            match m.fault
            case NoFault => Done
            case InBlock => BlockUnreadable
            case InDeltas => DeltaUnreadable
            case InTraces => TraceUnreadable
  {
    hide Replay, Copies, StartOk, ChainOk, LibAfter, Below, Coherent, Admit, Gated, DbOk, ApplyBlock, CacheRows;
    KeptChain(valid, w, m);
    AdmitOk(valid, w, m);
    PersistFree(valid, w.init, w.base, Below(w.chain, m.num), Admit(w.s.(reading := false), m).state, m);
  }

  lemma AdmitFrame(s: State, m: Block)
    ensures var e := Admit(s, m);
            && e.state.cfg == s.cfg && e.state.pauseMsec == s.pauseMsec && e.state.slowdown == s.slowdown
            && (e.outcome != Done ==> e.state.stopped)
  {
    hide RollbackSpec, RollbackEnds, Db.CanSetRevision;
  }

  lemma AdmitFields(s: State, m: Block)
    requires Admit(s, m).outcome == Done
    ensures var s' := Admit(s, m).state;
            if m.lib < m.num <= s.head then
              && s'.forkedAt == m.num
              && s'.acked == (if s.cfg.willAck then Min(s.acked, m.num - 1) else s.acked)
            else
              s'.forkedAt == s.forkedAt && s'.acked == s.acked
  {
    hide RollbackSpec, RollbackEnds, Db.CanSetRevision;
  }

  lemma PersistFields(valid: Bytes -> bool, s: State, m: Block)
    ensures var s' := Persist(valid, s, m).state;
            && s'.cfg == s.cfg && s'.pauseMsec == s.pauseMsec && s'.slowdown == s.slowdown
            && s'.acked == s.acked && s'.forkedAt == s.forkedAt && s'.irreversible == m.lib
  {
    hide ApplyBlock, CacheRows;
  }

  predicate Stored(e: Effect) {
    e.outcome == Done || e.outcome == TraceUnreadable
  }

  /** A fork drops the acknowledged height below it and is waited for. */
  function AckedAfter(w: World, m: Block): nat {
    if Forks(w, m) && w.s.cfg.willAck then Min(w.s.acked, m.num - 1) else w.s.acked
  }

  function ForkedAfter(w: World, m: Block): nat {
    if Forks(w, m) then m.num else w.s.forkedAt
  }

  /** Messages a node should not send, to a process in any state: an irreversible block that went
      back, a gap above uncommitted revisions, and a fork of what is committed, on which the
      rollback loop would not end. The check for a block below the last irreversible one is
      never met. */
  lemma Unexpected(s: State, m: Block)
    ensures var e := Admit(s, m);
            && (e.outcome == LibWentBack <==> m.lib < s.irreversible)
            && (e.outcome == RevisionRefused <==>
                  s.irreversible <= m.lib && s.db.revision + 1 < m.num && s.db.stack != [])
            && (e.outcome == Hangs <==>
                  s.irreversible <= m.lib < m.num <= s.head && m.num <= s.db.Floor())
            && e.outcome != BelowLib
            && (e.outcome in {LibWentBack, RevisionRefused, Hangs} ==>
                  e == Effect(s.(stopped := true, reading := false), [], e.outcome, false))
  {
    hide RollbackSpec;
  }

  /** What a stored message makes of the process's fields. */
  lemma ReceiveFields(valid: Bytes -> bool, w: World, m: Block)
    requires Inv(valid, w) && Enabled(w, Receive(m)) && Stored(ReceiveSpec(valid, w.s, m))
    ensures var s := ReceiveSpec(valid, w.s, m).state;
            && s.cfg == w.s.cfg && s.pauseMsec == w.s.pauseMsec && s.slowdown == w.s.slowdown
            && s.acked == AckedAfter(w, m) && s.forkedAt == ForkedAfter(w, m) && s.irreversible == m.lib
  {
    hide Inv, Admit, Persist;
    RunningFields(valid, w);
    AdmitOutcome(valid, w, m);
    AdmitFrame(w.s.(reading := false), m);
    AdmitFields(w.s.(reading := false), m);
    var admitted := Admit(w.s.(reading := false), m);
    PersistFields(valid, admitted.state, m);
  }

  /** Where every message a process may get leaves chain, committed height and database: what is
      stored replaces the blocks from its number up, and everything that is both irreversible
      and, with acknowledgements, acknowledged is committed with it. */
  lemma ReceiveLands(valid: Bytes -> bool, w: World, m: Block)
    requires Inv(valid, w) && Enabled(w, Receive(m))
    ensures var e := ReceiveSpec(valid, w.s, m);
            var w' := Next(valid, w, Receive(m));
            && (w'.s.stopped <==> e.outcome != Done) && !w'.s.reading
            && w'.chain == (if Stored(e) then Below(w.chain, m.num) + [m]
                            else if e.outcome == PrevMismatch then w.chain
                            else Below(w.chain, m.num))
            && w'.committed == (if !Stored(e) then w.committed
                                else if w.s.cfg.willAck then
                                  Max(w.committed, Min(m.num, Min(m.lib, AckedAfter(w, m))))
                                else Max(w.committed, Min(m.num, m.lib)))
            && (Stored(e) ==> w'.s.db.Floor() == w'.committed)
  {
    hide Inv, Enabled, ReceiveSpec, Below;
    var e := ReceiveSpec(valid, w.s, m);
    ReceiveEnds(valid, w, m);
    if Stored(e) {
      ReceiveFields(valid, w, m);
      StepKeeps(valid, w, Receive(m));
      FloorIsCommitted(valid, Next(valid, w, Receive(m)));
    }
  }

  lemma ReceiveEnds(valid: Bytes -> bool, w: World, m: Block)
    requires Inv(valid, w) && Enabled(w, Receive(m))
    ensures var e := ReceiveSpec(valid, w.s, m);
            && (e.stored <==> Stored(e))
            && (e.state.stopped <==> e.outcome != Done) && !e.state.reading
            && (Rejected(e.outcome) <==> e.outcome == PrevMismatch)
  {
    hide Replay, Copies, StartOk, ChainOk, LibAfter, Below, DbOk, Coherent, Admit, Persist, Gated;
    KeptChain(valid, w, m);
    AdmitOk(valid, w, m);
    var admitted := Admit(w.s.(reading := false), m);
    if admitted.outcome == Done {
      PersistFree(valid, w.init, w.base, Below(w.chain, m.num), admitted.state, m);
      PersistMemory(valid, admitted.state, m);
      PersistStops(valid, admitted.state, m);
    }
  }

  lemma PersistStops(valid: Bytes -> bool, s: State, m: Block)
    requires !s.reading
    ensures !Persist(valid, s, m).state.reading
  {
    hide ApplyBlock, CacheRows;
  }

  lemma FloorIsCommitted(valid: Bytes -> bool, w: World)
    requires Inv(valid, w) && w.chain != []
    ensures w.s.db.Floor() == w.committed
  {
    hide Replay, Copies, StartOk, ChainOk, LibAfter, MemoryOk;
  }

  /** What every message a process may get publishes: a fork, unless it is refused, and the
      completion of a block that was handled to its end. */
  lemma ReceivePublishes(valid: Bytes -> bool, w: World, m: Block)
    requires Inv(valid, w) && Enabled(w, Receive(m))
    ensures ReceiveSpec(valid, w.s, m).events ==
            (if Forks(w, m) && m.num != 1 then [ForkAt(m.num, Head(w) - m.num, Network, m.lib)] else [])
            + (if ReceiveSpec(valid, w.s, m).outcome == Done then [Completed(m.num, m.id, m.lib)] else [])
  {
    hide Replay, Copies, StartOk, ChainOk, LibAfter, Below, DbOk, Coherent, Admit, Persist, Gated;
    RunningHead(valid, w);
    AdmitOutcome(valid, w, m);
    AdmitOk(valid, w, m);
    var admitted := Admit(w.s.(reading := false), m);
    if admitted.outcome == Done {
      PersistMemory(valid, admitted.state, m);
      var kept := Persist(valid, admitted.state, m);
      if kept.outcome != Done {
        assert admitted.events + kept.events == admitted.events;
      }
    }
  }

  /** A process that ends before it commits what it stored has the chain it would have had, has
      committed nothing more, and has published the fork alone. */
  lemma DiesStoring(valid: Bytes -> bool, w: World, m: Block)
    requires Inv(valid, w) && Enabled(w, DieStoring(m))
    ensures var w' := Next(valid, w, DieStoring(m));
            && w'.s.stopped && w'.committed == w.committed
            && w'.chain == Next(valid, w, Receive(m)).chain
            && w'.pending == w.pending +
                 (if Forks(w, m) && m.num != 1 then [ForkAt(m.num, Head(w) - m.num, Network, m.lib)] else [])
  {
    hide Inv, Expected, Below, Admit, Write, Persist, Unlinked;
    AdmitOutcome(valid, w, m);
    AdmitPublishes(valid, w, m);
    WriteEnds(valid, Admit(w.s.(reading := false), m).state, m);
  }

  lemma AdmitPublishes(valid: Bytes -> bool, w: World, m: Block)
    requires Inv(valid, w) && Enabled(w, Receive(m))
    ensures var e := Admit(w.s.(reading := false), m);
            && !e.stored && (e.outcome == PrevMismatch ==> !Forks(w, m))
            && e.events == (if Forks(w, m) && m.num != 1 then [ForkAt(m.num, Head(w) - m.num, Network, m.lib)] else [])
  {
    hide Replay, Copies, StartOk, ChainOk, LibAfter, Below, DbOk, Coherent, Admit, Gated;
    RunningHead(valid, w);
    AdmitOutcome(valid, w, m);
    AdmitOk(valid, w, m);
  }

  lemma WriteEnds(valid: Bytes -> bool, s: State, m: Block)
    ensures var e := Write(valid, s, m);
            && (e.stored <==> Persist(valid, s, m).stored) && e.events == []
            && !Rejected(e.outcome) && !Rejected(Persist(valid, s, m).outcome)
  {
    hide ApplyBlock, CacheRows, CommitSpec;
  }

  // ---- Acknowledgements ----

  /** Every acknowledgement: outside a fork it counts unless it goes back, which stops the
      process; during one only that of the block before the fork ends the wait, and one beyond
      it is ignored. */
  lemma AckBranches(s: State, num: nat)
    ensures var e := AckSpec(s, num);
            && (s.forkedAt == 0 && s.acked <= num ==> e == Effect(s.(acked := num), [], Done, false))
            && (s.forkedAt == 0 && num < s.acked ==>
                  e == Effect(s.(stopped := true, reading := false), [], AckWentBack, false))
            && (0 < s.forkedAt && s.forkedAt <= num ==> e == Effect(s, [], Done, false))
            && (0 < s.forkedAt && num == s.forkedAt - 1 ==>
                  e == Effect(s.(acked := num, forkedAt := 0), [], Done, false))
            && (num + 1 < s.forkedAt ==> e == Effect(s.(acked := num), [], Done, false))
  {
  }

  /** No message of the run is a fork. */
  predicate OnlyExtends(valid: Bytes -> bool, w: World, steps: seq<Step>)
    decreases |steps|
  {
    steps == [] ||
    ((steps[0].Receive? ==> w.s.head < steps[0].m.num) && OnlyExtends(valid, Next(valid, w, steps[0]), steps[1..]))
  }

  predicate AckedOrOver(s: State, n: nat) {
    s.stopped || (s.cfg.willAck && s.forkedAt == 0 && n <= s.acked)
  }

  lemma StepKeepsAck(valid: Bytes -> bool, w: World, step: Step, n: nat)
    requires Enabled(w, step) && AckedOrOver(w.s, n) && !step.Start?
    requires step.Receive? ==> w.s.head < step.m.num
    ensures AckedOrOver(Next(valid, w, step).s, n)
  {
    hide Below, Handle, Register, Admit, Persist, StoreSpec;
    match step
    case Receive(m) =>
      AdmitFrame(w.s.(reading := false), m);
      if Admit(w.s.(reading := false), m).outcome == Done {
        AdmitFields(w.s.(reading := false), m);
      }
      PersistFields(valid, Admit(w.s.(reading := false), m).state, m);
    case _ =>
  }

  lemma {:induction false} AckStays(valid: Bytes -> bool, w: World, steps: seq<Step>, n: nat)
    requires EnabledRun(valid, w, steps) && SameProcess(steps) && OnlyExtends(valid, w, steps)
    requires AckedOrOver(w.s, n)
    ensures AckedOrOver(Run(valid, w, steps).s, n)
    decreases |steps|
  {
    hide AckedOrOver, Enabled, Next;
    if steps != [] {
      StepKeepsAck(valid, w, steps[0], n);
      AckStays(valid, Next(valid, w, steps[0]), steps[1..], n);
    }
  }

  /** What a consumer acknowledges outside a fork is committed, as far as it is irreversible,
      with the next block of the process that is stored, whatever happens in between short of
      a fork. */
  lemma AckIsCommitted(valid: Bytes -> bool, w: World, n: nat, more: seq<Step>, m: Block)
    requires Inv(valid, w) && !w.s.stopped && w.s.forkedAt == 0 && w.s.acked <= n && Enabled(w, Ack(n))
    requires var w1 := Next(valid, w, Ack(n));
             EnabledRun(valid, w1, more) && SameProcess(more) && OnlyExtends(valid, w1, more)
    requires var w2 := Run(valid, Next(valid, w, Ack(n)), more);
             Enabled(w2, Receive(m)) && w2.s.head < m.num && Stored(ReceiveSpec(valid, w2.s, m))
    ensures var w2 := Run(valid, Next(valid, w, Ack(n)), more);
            Min(n, m.lib) <= Next(valid, w2, Receive(m)).committed
  {
    hide Inv, EnabledRun, Run, OnlyExtends, ReceiveSpec;
    var w1 := Next(valid, w, Ack(n));
    var w2 := Run(valid, w1, more);
    StepKeeps(valid, w, Ack(n));
    RunKeeps(valid, w1, more);
    AckStays(valid, w1, more, n);
    ReceiveLands(valid, w2, m);
    RunningAcked(valid, w2);
    RunningFields(valid, w2);
  }

  lemma RunningAcked(valid: Bytes -> bool, w: World)
    requires Inv(valid, w) && !w.s.stopped && w.s.cfg.willAck
    ensures w.s.acked <= w.s.head
  {
  }

  // ---- Reading or pausing ----

  /** When a process reads on: not asked to slow down, room in the queue, the last block not
      reached and, with acknowledgements, no fork waited for and a lag within the limit. */
  predicate ReadsOn(w: World, queueFull: bool) {
    && !w.s.slowdown && !queueFull && Head(w) + 1 < w.s.cfg.endBlock
    && (w.s.cfg.willAck ==> w.s.forkedAt == 0 && Head(w) - w.s.acked < w.s.cfg.maxUnconfirmed)
  }

  /** When it is over: the last block is irreversible and, with acknowledgements, acknowledged. */
  predicate IsOver(w: World) {
    && Head(w) + 1 == w.s.cfg.endBlock && Head(w) <= w.s.irreversible
    && (w.s.cfg.willAck ==> w.s.acked == Head(w))
  }

  /** Every decision: the process reads, ends with everything committed, or reports a pause. */
  lemma PollDecides(valid: Bytes -> bool, w: World, queueFull: bool)
    requires Inv(valid, w) && Enabled(w, Poll(queueFull))
    ensures var w' := Next(valid, w, Poll(queueFull));
            && (w'.s.reading <==> ReadsOn(w, queueFull))
            && (w'.s.stopped <==> IsOver(w))
            && w'.chain == w.chain
            && w'.committed == (if IsOver(w) then Head(w) else w.committed)
            && w'.pending == w.pending +
                 (if ReadsOn(w, queueFull) || IsOver(w) then [] else [Paused(Head(w), w.s.acked)])
            && (!IsOver(w) ==> w'.s == w.s.(reading := w'.s.reading, pauseMsec := w'.s.pauseMsec))
            && (ReadsOn(w, queueFull) ==> w'.s.pauseMsec == 0)
  {
    hide Replay, Copies, Coherent, TablesOk, DbOk, LastRow, ChainOk;
    RunningHead(valid, w);
    BelowCommitted(valid, w);
  }

  lemma BelowCommitted(valid: Bytes -> bool, w: World)
    requires Inv(valid, w)
    ensures w.committed <= Head(w)
  {
    hide Replay, Copies, StartOk, ChainOk, LibAfter, MemoryOk;
  }

  function Polls(n: nat): seq<Step> {
    if n == 0 then [] else [Poll(true)] + Polls(n - 1)
  }

  /** Pauses in a row grow by 50 milliseconds each up to half a second. */
  lemma {:induction false} PausesGrow(valid: Bytes -> bool, w: World, before: nat, n: nat)
    requires !w.s.stopped && !w.s.reading && !FinishedAtEnd(w.s)
    requires w.s.pauseMsec == Min(500, 50 * before)
    ensures EnabledRun(valid, w, Polls(n))
    ensures Run(valid, w, Polls(n)).s == w.s.(pauseMsec := Min(500, 50 * (before + n)))
    decreases n
  {
    if 0 < n {
      var w1 := Next(valid, w, Poll(true));
      assert Polls(n)[0] == Poll(true) && Polls(n)[1..] == Polls(n - 1);
      PausesGrow(valid, w1, before + 1, n - 1);
    }
  }

  // ---- Scanning ----

  /** Decodable blocks that follow a head by number and by id, with an irreversible block that
      does not go back. */
  predicate Follow(lib: nat, head: nat, id: BlockId, blocks: seq<Block>)
    decreases |blocks|
  {
    blocks == [] ||
    (var m := blocks[0];
     && m.num == head + 1 && lib <= m.lib && m.prev == Some(id) && m.fault == NoFault
     && Follow(m.lib, m.num, m.id, blocks[1..]))
  }

  lemma {:induction false} FollowRises(lib: nat, head: nat, id: BlockId, blocks: seq<Block>)
    requires Follow(lib, head, id, blocks) && blocks != []
    ensures lib <= blocks[|blocks| - 1].lib && head < blocks[|blocks| - 1].num
    decreases |blocks|
  {
    var m := blocks[0];
    if |blocks| > 1 {
      FollowRises(m.lib, m.num, m.id, blocks[1..]);
    }
  }

  function Scan(blocks: seq<Block>): seq<Step> {
    if blocks == [] then [] else [Poll(false), Receive(blocks[0])] + Scan(blocks[1..])
  }

  /** Any chain of blocks that follows the head can be scanned up to the end block, and what is
      irreversible of it is committed as it goes. */
  lemma {:induction false} ScansOn(valid: Bytes -> bool, w: World, blocks: seq<Block>)
    requires Inv(valid, w) && !w.s.stopped && !w.s.reading && !w.s.slowdown && !w.s.cfg.willAck
    requires Follow(w.lib, Head(w), HeadId(w), blocks) && Head(w) + |blocks| < w.s.cfg.endBlock
    ensures EnabledRun(valid, w, Scan(blocks))
    ensures var w' := Run(valid, w, Scan(blocks));
            && !w'.s.stopped && w'.chain == w.chain + blocks
            && w'.committed ==
                 if blocks == [] then w.committed
                 else var m := blocks[|blocks| - 1]; Max(w.committed, Min(m.num, m.lib))
    decreases |blocks|
  {
    hide Inv, Next, Enabled, EnabledRun, Run;
    var steps := Scan(blocks);
    if blocks == [] {
      NoSteps(valid, w);
      assert w.chain + blocks == w.chain;
    } else {
      var m, rest := blocks[0], blocks[1..];
      var w1 := Next(valid, w, Poll(false));
      var w2 := Next(valid, w1, Receive(m));
      ScansOne(valid, w, m);
      if rest != [] {
        FollowRises(m.lib, m.num, m.id, rest);
      }
      ScansOn(valid, w2, rest);
      assert w2.chain + rest == w.chain + blocks;
      assert rest != [] ==> rest[|rest| - 1] == blocks[|blocks| - 1];
      assert rest == [] ==> blocks[|blocks| - 1] == m;
      assert steps[1..][0] == Receive(m) && steps[1..][1..] == Scan(rest);
      TakeStep(valid, w1, steps[1..]);
      TakeStep(valid, w, steps);
    }
  }

  /** A linked, decodable next block is read, stored and published. */
  lemma ScansOne(valid: Bytes -> bool, w: World, m: Block)
    requires Inv(valid, w) && !w.s.stopped && !w.s.reading && !w.s.slowdown && !w.s.cfg.willAck
    requires Follow(w.lib, Head(w), HeadId(w), [m]) && Head(w) + 1 < w.s.cfg.endBlock
    ensures var w1 := Next(valid, w, Poll(false));
            var w2 := Next(valid, w1, Receive(m));
            && Enabled(w, Poll(false)) && Enabled(w1, Receive(m))
            && Inv(valid, w2) && !w2.s.stopped && !w2.s.reading && !w2.s.slowdown && w2.s.cfg == w.s.cfg
            && w2.lib == m.lib && w2.chain == w.chain + [m] && w2.base == w.base
            && w2.committed == Max(w.committed, Min(m.num, m.lib))
  {
    hide Inv, PollSpec, ReceiveSpec, Below;
    var w1 := Next(valid, w, Poll(false));
    PollDecides(valid, w, false);
    StepKeeps(valid, w, Poll(false));
    RunningFields(valid, w1);
    assert Enabled(w1, Receive(m));
    ReceiveOutcome(valid, w1, m);
    ReceiveFields(valid, w1, m);
    ReceiveLands(valid, w1, m);
    NothingBelow(valid, w1, m);
    StepKeeps(valid, w1, Receive(m));
  }

  lemma NothingBelow(valid: Bytes -> bool, w: World, m: Block)
    requires Inv(valid, w) && Enabled(w, Receive(m)) && !Forks(w, m)
    ensures Below(w.chain, m.num) == w.chain
  {
    hide Replay, Copies, StartOk, ChainOk, LibAfter, Below, Coherent, DbOk;
    RunningHead(valid, w);
    KeptChain(valid, w, m);
    assert w.chain[..|w.chain|] == w.chain;
  }

  // ---- Starting ----

  predicate InUse(w: World) {
    w.base < w.committed || w.init.state != []
  }

  predicate StartRefused(w: World, cfg: Config) {
    InUse(w) && 0 < cfg.startBlock
  }

  /** How every start ends, and what it publishes: nothing when a start block is given for a
      database in use; else a resync at the first block of a scan, and a restart with the
      number of blocks that were not committed if there are any. */
  lemma StartPublishes(valid: Bytes -> bool, w: World, cfg: Config)
    requires Inv(valid, w) && Enabled(w, Start(cfg))
    ensures var e := StartSpec(cfg, w.s.db);
            && e.outcome == (if StartRefused(w, cfg) then StartBlockGiven
                             else if cfg.endBlock <= w.committed then PastEnd
                             else Done)
            && e.events ==
                 if StartRefused(w, cfg) then []
                 else
                   (if InUse(w) then [] else [ForkAt(w.committed + 1, 0, Resync, 0)])
                   + (if Head(w) == w.committed then []
                      else [ForkAt(w.committed + 1, Head(w) - w.committed, Restart, e.state.irreversible)])
  {
    hide Replay, Copies, StartOk, LibAfter, Coherent, Gated, Below, MemoryOk, ChainOk;
    CommittedDb(valid, w);
    StartFinds(valid, w, cfg);
  }

  /** The fields of a process that starts: those of the last committed block, nothing cached, no
      pause, and a fork waited for exactly when one was announced. */
  lemma StartFields(valid: Bytes -> bool, w: World, cfg: Config)
    requires Inv(valid, w) && Enabled(w, Start(cfg)) && !StartRefused(w, cfg)
    ensures var s := StartSpec(cfg, w.s.db).state;
            && s.cfg == cfg && s.head == w.committed
            && s.acked == (if cfg.willAck then w.committed else 0)
            && s.forkedAt == (if InUse(w) && Head(w) == w.committed then 0 else w.committed + 1)
            && s.pauseMsec == 0 && !s.slowdown && !s.reading && s.cache == EMPTY_CACHE
            && (s.stopped <==> cfg.endBlock <= w.committed)
    ensures w.base < w.committed ==>
              var s := StartSpec(cfg, w.s.db).state;
              var m := w.chain[w.committed - w.base - 1];
              m.num == w.committed && s.headId == m.id && s.irreversible == m.lib && s.irreversibleId == m.libId
    ensures !InUse(w) ==> w.committed + 1 == Max(1, cfg.startBlock)
  {
    hide Replay, Copies, StartOk, LibAfter, Coherent, Gated, Below, MemoryOk, ChainOk;
    CommittedDb(valid, w);
    StartFinds(valid, w, cfg);
  }
}
