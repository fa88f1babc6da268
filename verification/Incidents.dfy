/** Reachable instances of what can go wrong with a single process: a fork at block 1, and an
    end block that is not yet irreversible. */
module Incidents {
  import opened Options
  import opened Chainbase
  import opened Store
  import opened ReceiverSpec
  import opened Runs
  import opened Safety

  /** The first block of a chain without any irreversible block, and another in its place. */
  const FIRST := Block(1, 11, None, 0, 0, [], NoFault)
  const OTHER_FIRST := Block(1, 21, None, 0, 0, [], NoFault)

  function WithoutAcks(endBlock: nat): Config {
    Config(0, endBlock, false, 1)
  }

  /** A process without acknowledgements up to its first block. */
  function UpToFirst(endBlock: nat): seq<Step> {
    [Start(WithoutAcks(endBlock)), Poll(false), Receive(FIRST)]
  }

  function AfterFirst(valid: Bytes -> bool, endBlock: nat): State {
    State(WithoutAcks(endBlock), 1, 11, 0, 0, 0, 1, 0, false, false, false, EMPTY_CACHE,
          Db(ApplyBlock(valid, EMPTY_TABLES, FIRST), [EMPTY_TABLES], 1))
  }

  lemma FirstBlock(valid: Bytes -> bool, endBlock: nat)
    requires 1 < endBlock
    ensures Initial(valid, NewWorld(0))
    ensures EnabledRun(valid, NewWorld(0), UpToFirst(endBlock))
    ensures Run(valid, NewWorld(0), UpToFirst(endBlock)).s == AfterFirst(valid, endBlock)
    ensures Run(valid, NewWorld(0), UpToFirst(endBlock)).lib == 0
    ensures Run(valid, NewWorld(0), UpToFirst(endBlock)).base == 0
  {
    hide ApplyBlock, EnabledRun, Run, Handle, Below;
    var steps := UpToFirst(endBlock);
    var w1 := Next(valid, NewWorld(0), steps[0]);
    var w2 := Next(valid, w1, steps[1]);
    assert w2.s == State(WithoutAcks(endBlock), 0, 0, 0, 0, 0, 1, 0, false, true, false, EMPTY_CACHE,
                         Db(EMPTY_TABLES, [], 0));
    var w3 := Next(valid, w2, steps[2]);
    assert w3.s == AfterFirst(valid, endBlock);
    assert EnabledRun(valid, w3, []) && Run(valid, w3, []) == w3 by { NoSteps(valid, w3); }
    assert steps[2..][1..] == [] && steps[1..][1..] == steps[2..];
    TakeStep(valid, w2, steps[2..]);
    TakeStep(valid, w1, steps[1..]);
    TakeStep(valid, NewWorld(0), steps);
  }

  /** Another block 1 after the first one is a fork the node may well report, and the receiver
      takes its own rollback to revision 0 for a missing undo stack. */
  lemma ForkAtFirstBlock(valid: Bytes -> bool)
    ensures Initial(valid, NewWorld(0))
    ensures EnabledRun(valid, NewWorld(0), UpToFirst(100) + [Poll(false)])
    ensures var w := Run(valid, NewWorld(0), UpToFirst(100) + [Poll(false)]);
            && Enabled(w, Receive(OTHER_FIRST))
            && ReceiveSpec(valid, w.s, OTHER_FIRST).outcome == NoUndoStack
            && Next(valid, w, Receive(OTHER_FIRST)).s.stopped
  {
    hide ApplyBlock, EnabledRun, Run;
    FirstBlock(valid, 100);
    var w := Run(valid, NewWorld(0), UpToFirst(100));
    PollOnce(valid, w);
    RunThen(valid, NewWorld(0), UpToFirst(100), [Poll(false)]);
    var reading := Next(valid, w, Poll(false));
    assert reading.s == AfterFirst(valid, 100).(reading := true);
  }

  lemma PollOnce(valid: Bytes -> bool, w: World)
    requires Enabled(w, Poll(false))
    ensures EnabledRun(valid, w, [Poll(false)])
    ensures Run(valid, w, [Poll(false)]) == Next(valid, w, Poll(false))
  {
    assert [Poll(false)][1..] == [];
  }

  /** With end block 2 and no irreversible block yet, the process stands at its last block and
      can never come to its end. */
  lemma EndNotIrreversible(valid: Bytes -> bool)
    ensures Initial(valid, NewWorld(0))
    ensures EnabledRun(valid, NewWorld(0), UpToFirst(2))
    ensures var w := Run(valid, NewWorld(0), UpToFirst(2));
            !w.s.stopped && AtLastBlock(w.s) && !CanEnd(valid, w)
  {
    hide CanEnd, EnabledRun, Run, Initial;
    FirstBlock(valid, 2);
    EndsIff(valid, NewWorld(0), UpToFirst(2));
  }
}
