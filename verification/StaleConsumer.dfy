/** A run, within every expectation on node, operator and consumer, that ends with a consumer
    left behind by two starts in a row. */
module StaleConsumer {
  import opened Options
  import opened Chainbase
  import opened Store
  import opened ReceiverSpec
  import opened Runs
  import opened Consumer

  const CFG := Config(0, 100, true, 10)
  const BLOCK_1 := Block(1, 11, None, 1, 11, [], NoFault)
  const BLOCK_2 := Block(2, 12, Some(11), 1, 11, [], NoFault)

  /** A first block, then a second one that the consumer handles but never acknowledges. */
  const FIRST_BLOCK := [Start(CFG), Deliver, Ack(0), Poll(false), Receive(BLOCK_1)]
  const SECOND_BLOCK := [Deliver, Ack(1), Poll(false), Receive(BLOCK_2), Deliver]

  function OneBlock(valid: Bytes -> bool): World {
    World(
      State(CFG, 1, 11, 1, 11, 0, 0, 0, false, false, false, EMPTY_CACHE,
            Db(ApplyBlock(valid, EMPTY_TABLES, BLOCK_1), [EMPTY_TABLES], 1)),
      EMPTY_TABLES, 0, [BLOCK_1], 1, 0, 0, [], [Completed(1, 11, 1)])
  }

  function TwoBlocks(valid: Bytes -> bool): World {
    var t1 := ApplyBlock(valid, EMPTY_TABLES, BLOCK_1);
    World(
      State(CFG, 2, 12, 1, 11, 1, 0, 0, false, false, false, EMPTY_CACHE,
            Db(ApplyBlock(valid, t1, BLOCK_2), [t1], 2)),
      EMPTY_TABLES, 0, [BLOCK_1, BLOCK_2], 1, 1, 1, [(1, 11), (2, 12)], [])
  }

  lemma CarefulStep(valid: Bytes -> bool, w: World, steps: seq<Step>)
    requires steps != [] && Careful(w, steps[0])
    requires CarefulRun(valid, Next(valid, w, steps[0]), steps[1..])
    ensures CarefulRun(valid, w, steps)
    ensures Run(valid, w, steps) == Run(valid, Next(valid, w, steps[0]), steps[1..])
  {
    hide Careful, Next;
  }

  lemma NothingToDo(valid: Bytes -> bool, w: World)
    ensures CarefulRun(valid, w, []) && Run(valid, w, []) == w
  {
  }

  /** Started, told to re-read from block 1, acknowledged, and about to read. */
  const READING := NewWorld(1).(
    s := State(CFG, 0, 0, 0, 0, 0, 0, 0, false, true, false, EMPTY_CACHE, Db(EMPTY_TABLES, [], 0)))

  lemma StartReads(valid: Bytes -> bool)
    ensures var w1 := Next(valid, NewWorld(1), Start(CFG));
            var w2 := Next(valid, w1, Deliver);
            var w3 := Next(valid, w2, Ack(0));
            && Next(valid, w3, Poll(false)) == READING
            && Careful(NewWorld(1), Start(CFG)) && Careful(w1, Deliver)
            && Careful(w2, Ack(0)) && Careful(w3, Poll(false))
  {
    var w1 := Next(valid, NewWorld(1), Start(CFG));
    assert w1.pending == [ForkAt(1, 0, Resync, 0)];
    var w2 := Next(valid, w1, Deliver);
    assert w2.view == [] && w2.pending == [];
  }

  lemma ReadsFirst(valid: Bytes -> bool)
    ensures Next(valid, READING, Receive(BLOCK_1)) == OneBlock(valid)
    ensures Careful(READING, Receive(BLOCK_1))
  {
    hide ApplyBlock;
  }

  lemma FirstBlock(valid: Bytes -> bool)
    ensures CarefulRun(valid, NewWorld(1), FIRST_BLOCK)
    ensures Run(valid, NewWorld(1), FIRST_BLOCK) == OneBlock(valid)
  {
    hide CarefulRun, Run, Next, Careful, OneBlock, NewWorld;
    StartReads(valid);
    ReadsFirst(valid);
    var w1 := Next(valid, NewWorld(1), Start(CFG));
    var w2 := Next(valid, w1, Deliver);
    var w3 := Next(valid, w2, Ack(0));
    NothingToDo(valid, OneBlock(valid));
    assert FIRST_BLOCK[4..] == [Receive(BLOCK_1)];
    assert FIRST_BLOCK[4..][1..] == [] && FIRST_BLOCK[3..][1..] == FIRST_BLOCK[4..]
           && FIRST_BLOCK[2..][1..] == FIRST_BLOCK[3..] && FIRST_BLOCK[1..][1..] == FIRST_BLOCK[2..];
    CarefulStep(valid, READING, FIRST_BLOCK[4..]);
    CarefulStep(valid, w3, FIRST_BLOCK[3..]);
    CarefulStep(valid, w2, FIRST_BLOCK[2..]);
    CarefulStep(valid, w1, FIRST_BLOCK[1..]);
    CarefulStep(valid, NewWorld(1), FIRST_BLOCK);
  }

  lemma AcknowledgedReads(valid: Bytes -> bool)
    ensures var w1 := Next(valid, OneBlock(valid), Deliver);
            var w2 := Next(valid, w1, Ack(1));
            var w3 := Next(valid, w2, Poll(false));
            && w3 == OneBlock(valid).(s := OneBlock(valid).s.(acked := 1, reading := true), ackHigh := 1,
                                      view := [(1, 11)], pending := [])
            && Careful(OneBlock(valid), Deliver) && Careful(w1, Ack(1)) && Careful(w2, Poll(false))
  {
    hide ApplyBlock;
  }

  lemma ReadsSecond(valid: Bytes -> bool, w: World)
    requires w == OneBlock(valid).(s := OneBlock(valid).s.(acked := 1, reading := true), ackHigh := 1,
                                   view := [(1, 11)], pending := [])
    ensures var w4 := Next(valid, w, Receive(BLOCK_2));
            && Next(valid, w4, Deliver) == TwoBlocks(valid)
            && Careful(w, Receive(BLOCK_2)) && Careful(w4, Deliver)
  {
    hide ApplyBlock;
    BlockAddsId(valid, BLOCK_1, EMPTY_TABLES);
    var w4 := Next(valid, w, Receive(BLOCK_2));
    assert w4.s == TwoBlocks(valid).s;
    assert w4.pending == [Completed(2, 12, 1)];
  }

  lemma SecondBlock(valid: Bytes -> bool)
    ensures CarefulRun(valid, OneBlock(valid), SECOND_BLOCK)
    ensures Run(valid, OneBlock(valid), SECOND_BLOCK) == TwoBlocks(valid)
  {
    hide CarefulRun, Run, Next, Careful, OneBlock, TwoBlocks;
    AcknowledgedReads(valid);
    var w0 := OneBlock(valid);
    var w1 := Next(valid, w0, Deliver);
    var w2 := Next(valid, w1, Ack(1));
    var w3 := Next(valid, w2, Poll(false));
    ReadsSecond(valid, w3);
    var w4 := Next(valid, w3, Receive(BLOCK_2));
    NothingToDo(valid, TwoBlocks(valid));
    assert SECOND_BLOCK[4..] == [Deliver];
    assert SECOND_BLOCK[4..][1..] == [] && SECOND_BLOCK[3..][1..] == SECOND_BLOCK[4..]
           && SECOND_BLOCK[2..][1..] == SECOND_BLOCK[3..] && SECOND_BLOCK[1..][1..] == SECOND_BLOCK[2..];
    CarefulStep(valid, w4, SECOND_BLOCK[4..]);
    CarefulStep(valid, w3, SECOND_BLOCK[3..]);
    CarefulStep(valid, w2, SECOND_BLOCK[2..]);
    CarefulStep(valid, w1, SECOND_BLOCK[1..]);
    CarefulStep(valid, w0, SECOND_BLOCK);
  }

  /** An irreversible first block leaves no received-block row. */
  lemma BlockAddsId(valid: Bytes -> bool, m: Block, t: Tables)
    requires m.num <= m.lib && m.rows == []
    ensures ApplyBlock(valid, t, m).blocks == t.blocks
    ensures ApplyBlock(valid, t, m).state != []
    ensures t.state == [] ==> ApplyBlock(valid, t, m).state == [RowOf(m)]
  {
  }

  /** From a new database, two blocks, and two starts in a row, with a consumer that handles
      every event it is sent in time to acknowledge truthfully: the consumer ends with block 2,
      the receiver without it, and nothing is under way to tell. */
  lemma LeftBehind(valid: Bytes -> bool)
    ensures Initial(valid, NewWorld(1))
    ensures CarefulRun(valid, NewWorld(1), FIRST_BLOCK)
    ensures CarefulRun(valid, Run(valid, NewWorld(1), FIRST_BLOCK), SECOND_BLOCK)
    ensures var w := Run(valid, Run(valid, NewWorld(1), FIRST_BLOCK), SECOND_BLOCK);
            var once := Next(valid, w, Start(CFG));
            var twice := Next(valid, once, Start(CFG));
            && Careful(w, Start(CFG)) && Enabled(once, Start(CFG))
            && !twice.s.stopped && twice.pending == []
            && twice.view == [(1, 11), (2, 12)] && twice.chain == [BLOCK_1]
  {
    FirstBlock(valid);
    SecondBlock(valid);
    InitialAgrees(valid, NewWorld(1));
    CarefulRunKeeps(valid, NewWorld(1), FIRST_BLOCK);
    CarefulRunKeeps(valid, OneBlock(valid), SECOND_BLOCK);
    StartsTwice(valid);
  }

  /** The same two blocks, and a snapshot saved once the process is down: the next process
      resumes from block 1 without a word, and the consumer keeps block 2. */
  lemma SavedBehind(valid: Bytes -> bool)
    ensures CarefulRun(valid, NewWorld(1), FIRST_BLOCK)
    ensures CarefulRun(valid, Run(valid, NewWorld(1), FIRST_BLOCK), SECOND_BLOCK)
    ensures var w := Run(valid, Run(valid, NewWorld(1), FIRST_BLOCK), SECOND_BLOCK);
            var saved := Next(valid, w, Revert(1));
            var again := Next(valid, saved, Start(CFG));
            && Careful(w, Revert(1)) && Enabled(saved, Start(CFG))
            && !again.s.stopped && again.pending == []
            && again.view == [(1, 11), (2, 12)] && again.chain == [BLOCK_1]
  {
    FirstBlock(valid);
    SecondBlock(valid);
    SavesOnce(valid);
  }

  lemma SavesOnce(valid: Bytes -> bool)
    ensures var saved := Next(valid, TwoBlocks(valid), Revert(1));
            var again := Next(valid, saved, Start(CFG));
            && Careful(TwoBlocks(valid), Revert(1)) && Enabled(saved, Start(CFG))
            && !again.s.stopped && again.pending == []
            && again.view == [(1, 11), (2, 12)] && again.chain == [BLOCK_1]
  {
    hide ApplyBlock;
    BlockAddsId(valid, BLOCK_1, EMPTY_TABLES);
    var w := TwoBlocks(valid);
    var t1 := ApplyBlock(valid, EMPTY_TABLES, BLOCK_1);
    assert w.s.db.UndoTimes(0) == w.s.db;
    assert w.s.db.UndoTimes(1) == Db(t1, [], 1);
    var saved := Next(valid, w, Revert(1));
    assert saved.s.db == Db(t1, [], 1);
    assert saved.chain == [BLOCK_1];
    assert t1.state == [RowOf(BLOCK_1)];
    assert Below([BLOCK_1], 2) == [BLOCK_1];
  }

  lemma StartsTwice(valid: Bytes -> bool)
    requires ConsumerInv(valid, TwoBlocks(valid))
    ensures var once := Next(valid, TwoBlocks(valid), Start(CFG));
            var twice := Next(valid, once, Start(CFG));
            && Careful(TwoBlocks(valid), Start(CFG)) && Enabled(once, Start(CFG))
            && !twice.s.stopped && twice.pending == []
            && twice.view == [(1, 11), (2, 12)] && twice.chain == [BLOCK_1]
  {
    hide ConsumerInv, ApplyBlock, Agrees;
    BlockAddsId(valid, BLOCK_1, EMPTY_TABLES);
    TwoStartsLoseConsumer(valid, TwoBlocks(valid), CFG);
    var chain := [BLOCK_1, BLOCK_2];
    assert chain[..1] == [BLOCK_1];
    assert Below(chain[..1], 2) == [BLOCK_1];
    assert Below(chain, 2) == [BLOCK_1];
  }
}
