/** Every enabled step keeps the receiver's invariant, so every run does. */
module Invariant {
  import opened Chainbase
  import opened Store
  import opened ReceiverSpec
  import opened TableProperties
  import opened Runs

  // ---- The ABI cache ----

  lemma {:induction false} RowsKeepCoherent(valid: Bytes -> bool, c: Cache, t: Tables, rows: seq<AccountRow>, num: nat)
    requires Coherent(c, t.abis)
    ensures Coherent(CacheRows(valid, c, rows), ApplyRows(valid, t, rows, num).abis)
  {
    if rows != [] {
      RowsKeepCoherent(valid, c, t, rows[..|rows| - 1], num);
    }
  }

  /** What one row does to the cache: its account is cached afterwards exactly when it brought a
      usable ABI, and the others stay cached unless it was cached before. */
  lemma RowCaches(valid: Bytes -> bool, c: Cache, row: AccountRow, a: Name)
    requires c.context.Keys == c.imported
    ensures var c' := CacheRow(valid, c, row);
            && c'.context.Keys == c'.imported
            && (a in c'.imported <==>
                  if !row.present then a in c.imported
                  else if a == row.name then row.abi != [] && valid(row.abi)
                  else a in c.imported && row.name !in c.imported)
            && (a in c'.imported ==>
                  c'.context[a] == if row.present && a == row.name then row.abi else c.context[a])
  {
  }

  lemma BlockKeepsCoherent(valid: Bytes -> bool, c: Cache, t: Tables, m: Block)
    requires Coherent(c, t.abis)
    ensures Coherent(CacheRows(valid, c, m.rows), ApplyBlock(valid, t, m).abis)
  {
    var added := t.(blocks := AddBlock(t.blocks, m.num, m.id, m.lib));
    RowsKeepCoherent(valid, c, added, m.rows, m.num);
  }

  /** What emptying the cache before a changed ABI is saved buys: the context would otherwise
      keep the old one for an account it holds, and the cache would claim what is not so. */
  lemma ResetNeeded(valid: Bytes -> bool, c: Cache, abis: map<Name, Bytes>, name: Name, abi: Bytes)
    requires Coherent(c, abis) && name in c.imported && valid(abi) && abi != abis[name]
    ensures !Coherent(Cache(c.imported + {name}, Register(valid, c.context, name, abi)), abis[name := abi])
    ensures Coherent(Cache(EMPTY_CACHE.imported + {name}, Register(valid, EMPTY_CACHE.context, name, abi)),
                     abis[name := abi])
  {
    var kept := Cache(c.imported + {name}, Register(valid, c.context, name, abi));
    assert name in kept.imported && kept.context[name] == abis[name];
  }

  // ---- Receiving ----

  /** The chain below an admissible message, and how many of its blocks that leaves. */
  lemma KeptChain(valid: Bytes -> bool, w: World, m: Block)
    requires Inv(valid, w) && Enabled(w, Receive(m))
    ensures var k := m.num - 1 - w.base;
            && |w.chain| - |w.s.db.stack| <= k <= |w.chain|
            && Below(w.chain, m.num) == w.chain[..k]
            && ChainOk(w.init, w.base, w.chain[..k])
            && LibAfter(w.init, w.base, w.chain[..k]) <= m.lib
            && w.base <= m.lib
            && w.s.head == w.base + |w.chain|
            && w.s.irreversible <= m.lib
  {
    BelowAt(w.init, w.base, w.chain, m.num);
    assert w.chain[..|w.chain|] == w.chain;
    ChainPrefix(w.init, w.base, w.chain, m.num - 1 - w.base);
  }

  /** A fork is rolled back to exactly the revision below it, and only a fork at block 1 then
      finds no undo stack. */
  lemma AdmitFork(valid: Bytes -> bool, w: World, m: Block)
    requires Inv(valid, w) && Enabled(w, Receive(m)) && m.num <= w.s.head
    ensures var e := Admit(w.s.(reading := false), m);
            var kept := Below(w.chain, m.num);
            && e.outcome == (if m.num == 1 then NoUndoStack else Done)
            && DbOk(valid, w.init, w.base, kept, e.state.db)
            && e.state.db.revision == m.num - 1
            && |e.state.db.stack| == |w.s.db.stack| - |w.chain| + |kept|
            && e.state.cfg == w.s.cfg && !e.state.reading && !e.stored
            && (e.outcome == NoUndoStack ==> e.state.stopped && e.events == [])
            && (e.outcome == Done ==>
                  && e.state.cache == EMPTY_CACHE
                  && e.state.stopped == w.s.stopped
                  && e.state.forkedAt == m.num
                  && e.events == [ForkAt(m.num, w.s.head - m.num, Network, m.lib)]
                  && (w.s.cfg.willAck ==> e.state.acked == Min(w.s.acked, m.num - 1)))
  {
    hide Replay, Copies, StartOk, ChainOk, LibAfter, Below, Coherent;
    KeptChain(valid, w, m);
    assert w.chain != [];
    DbRollback(valid, w.init, w.base, w.chain, w.s.db, m.num - 1 - w.base);
  }

  /** The next block is admitted when it links to the head, and its revision is ready. */
  lemma AdmitNext(valid: Bytes -> bool, w: World, m: Block)
    requires Inv(valid, w) && Enabled(w, Receive(m)) && m.num > w.s.head
    ensures var e := Admit(w.s.(reading := false), m);
            && Below(w.chain, m.num) == w.chain
            && e.outcome in {Done, PrevMismatch}
            && DbOk(valid, w.init, w.base, w.chain, e.state.db)
            && e.state.db == w.s.db.(revision := m.num - 1)
            && e.state == w.s.(reading := false, db := e.state.db, stopped := e.outcome == PrevMismatch)
            && e.events == [] && !e.stored
  {
    hide Replay, Copies, StartOk, ChainOk, LibAfter, Below, Coherent;
    KeptChain(valid, w, m);
    assert w.chain[..|w.chain|] == w.chain;
  }

  /** Admitting a message: the only failures left are a broken link to the previous block and a
      fork at block 1. */
  lemma AdmitOk(valid: Bytes -> bool, w: World, m: Block)
    requires Inv(valid, w) && Enabled(w, Receive(m))
    ensures var e := Admit(w.s.(reading := false), m);
            var kept := Below(w.chain, m.num);
            && e.outcome in {Done, PrevMismatch, NoUndoStack}
            && (e.outcome == NoUndoStack <==> m.num == 1 && m.num <= w.s.head)
            && DbOk(valid, w.init, w.base, kept, e.state.db)
            && e.state.db.revision == m.num - 1
            && |e.state.db.stack| == |w.s.db.stack| - |w.chain| + |kept|
            && !e.stored && !e.state.reading && e.state.cfg == w.s.cfg
            && (e.outcome == PrevMismatch ==> kept == w.chain)
            && (e.outcome != Done ==> e.state.stopped && e.events == [])
            && (e.outcome == Done ==>
                  && Coherent(e.state.cache, e.state.db.current.abis)
                  && e.state.stopped == w.s.stopped
                  && (m.num <= w.s.head ==>
                        e.state.forkedAt == m.num
                        && e.events == [ForkAt(m.num, w.s.head - m.num, Network, m.lib)]
                        && (w.s.cfg.willAck ==> e.state.acked == Min(w.s.acked, m.num - 1)))
                  && (m.num > w.s.head ==>
                        e.state.forkedAt == w.s.forkedAt && e.state.acked == w.s.acked && e.events == []))
  {
    hide Replay, Copies, StartOk, ChainOk, LibAfter, Below, Admit, DbOk, Gated, LastRow;
    if m.num <= w.s.head {
      AdmitFork(valid, w, m);
    } else {
      AdmitNext(valid, w, m);
    }
  }

  /** Receiving never raises the acknowledged height. */
  lemma AdmitAcked(s: State, m: Block)
    ensures var s' := Admit(s, m).state;
            s'.cfg == s.cfg && s'.acked <= s.acked && (!s'.stopped ==> !s.stopped)
  {
    hide RollbackSpec, RollbackEnds;
  }

  lemma ReceiveAcked(valid: Bytes -> bool, s: State, m: Block)
    ensures var s' := ReceiveSpec(valid, s, m).state;
            s'.cfg == s.cfg && s'.acked <= s.acked && (!s'.stopped ==> !s.stopped)
  {
    hide Admit, ApplyBlock, CacheRows;
    AdmitAcked(s.(reading := false), m);
  }

  /** Storing an admitted block finds its number free. */
  lemma PersistFree(valid: Bytes -> bool, init: Tables, base: nat, kept: seq<Block>, s: State, m: Block)
    requires StartOk(valid, init, base) && ChainOk(init, base, kept)
    requires DbOk(valid, init, base, kept, s.db)
    requires m.num == base + 1 + |kept| && LibAfter(init, base, kept) <= m.lib
    ensures Persist(valid, s, m).outcome != DuplicateBlock
  {
    hide ApplyBlock, CacheRows, StartOk, ChainOk, LibAfter, DbOk, Replay, CommitSpec;
    DbHolds(valid, init, base, kept, s.db);
    if m.lib < m.num {
      NumberFree(valid, init, base, kept, m);
    }
  }

  /** A stored block adds one copy to the undo stack, and the floor rises to what may be
      committed. */
  lemma PersistDb(valid: Bytes -> bool, init: Tables, base: nat, kept: seq<Block>, s: State, m: Block)
    requires DbOk(valid, init, base, kept, s.db)
    requires s.db.revision == m.num - 1 == base + |kept|
    ensures var e := Persist(valid, s, m);
            e.stored ==>
              && DbOk(valid, init, base, kept + [m], e.state.db)
              && e.state.db.current == ApplyBlock(valid, s.db.current, m)
              && base + |kept| + 1 - |e.state.db.stack| ==
                 Max(base + |kept| - |s.db.stack|, Min(Committable(e.state), m.num))
  {
    hide DbOk, Persist;
    PersistCommits(valid, s, m);
    DbStore(valid, init, base, kept, s.db, m, Committable(Persist(valid, s, m).state));
  }

  lemma PersistCommits(valid: Bytes -> bool, s: State, m: Block)
    ensures var e := Persist(valid, s, m);
            e.stored ==>
              e.state.db == s.db.StartSession().(current := ApplyBlock(valid, s.db.current, m))
                            .Commit(Committable(e.state))
  {
    hide ApplyBlock, CacheRows, Db.StartSession, Db.Commit;
  }

  lemma DbHolds(valid: Bytes -> bool, init: Tables, base: nat, chain: seq<Block>, db: Db<Tables>)
    requires DbOk(valid, init, base, chain, db)
    ensures db.current == Replay(valid, init, chain)
  {
    hide Replay, Copies;
  }

  /** What storing an admitted block makes of the receiver's memory and events. */
  lemma PersistMemory(valid: Bytes -> bool, s: State, m: Block)
    requires Coherent(s.cache, s.db.current.abis)
    ensures var e := Persist(valid, s, m);
            && e.outcome in {Done, BlockUnreadable, DuplicateBlock, DeltaUnreadable, TraceUnreadable}
            && e.state.cfg == s.cfg && e.state.acked == s.acked && e.state.forkedAt == s.forkedAt
            && e.state.irreversible == m.lib && Committable(e.state) <= m.lib
            && (e.stored <==> e.outcome in {Done, TraceUnreadable})
            && (!e.stored ==> e.state.db == s.db)
            && (e.outcome != Done ==> e.state.stopped && e.events == [])
            && (e.outcome == Done ==>
                  && e.events == [Completed(m.num, m.id, m.lib)]
                  && StateRow(e.state.head, e.state.headId, e.state.irreversible, e.state.irreversibleId) == RowOf(m)
                  && e.state.reading == s.reading && e.state.stopped == s.stopped
                  && Coherent(e.state.cache, e.state.db.current.abis))
  {
    hide ApplyBlock, CacheRows, Coherent;
    BlockKeepsCoherent(valid, s.cache, s.db.current, m);
  }

  /** A message that ends in a failure leaves the database at the chain it cut back to. */
  lemma RejectKeeps(valid: Bytes -> bool, w: World, m: Block)
    requires Inv(valid, w) && Enabled(w, Receive(m))
    requires Admit(w.s.(reading := false), m).outcome != Done
    ensures Inv(valid, Next(valid, w, Receive(m)))
  {
    hide Replay, Copies, StartOk, Coherent, Admit, Persist, Below;
    KeptChain(valid, w, m);
    AdmitOk(valid, w, m);
    var e := Admit(w.s.(reading := false), m);
    var w' := Next(valid, w, Receive(m));
    assert w'.s == e.state && w'.s.stopped;
  }

  /** An admitted message in one move. */
  lemma NextAccepted(valid: Bytes -> bool, w: World, m: Block)
    requires Admit(w.s.(reading := false), m).outcome == Done
    ensures var admitted := Admit(w.s.(reading := false), m);
            var e := Persist(valid, admitted.state, m);
            var kept := Below(w.chain, m.num);
            Next(valid, w, Receive(m)) ==
              w.(s := e.state, lib := Max(w.lib, m.lib), pending := w.pending + (admitted.events + e.events),
                 chain := if e.stored then kept + [m] else kept,
                 committed := if e.stored then Max(w.committed, Min(Committable(e.state), m.num)) else w.committed)
  {
    hide Admit, CommitSpec, CacheRows, ApplyBlock, Below, Min, Max, Committable;
  }

  lemma AcceptKeepsChain(valid: Bytes -> bool, w: World, m: Block)
    requires Inv(valid, w) && Enabled(w, Receive(m))
    requires Admit(w.s.(reading := false), m).outcome == Done
    ensures var w' := Next(valid, w, Receive(m));
            && ChainOk(w.init, w.base, w'.chain)
            && LibAfter(w.init, w.base, w'.chain) <= w'.lib
  {
    hide Admit, Persist, Below, DbOk, ChainOk, LibAfter, MemoryOk, Next, Committable;
    KeptChain(valid, w, m);
    ChainExtend(w.init, w.base, Below(w.chain, m.num), m);
    NextAccepted(valid, w, m);
  }

  lemma AcceptKeepsDb(valid: Bytes -> bool, w: World, m: Block)
    requires Inv(valid, w) && Enabled(w, Receive(m))
    requires Admit(w.s.(reading := false), m).outcome == Done
    ensures var w' := Next(valid, w, Receive(m));
            && DbOk(valid, w.init, w.base, w'.chain, w'.s.db)
            && w'.committed == w.base + |w'.chain| - |w'.s.db.stack|
            && w'.committed <= w'.lib
  {
    hide Coherent, Admit, Persist, Below, DbOk, ChainOk, LibAfter, MemoryOk, Next, Committable, StartOk;
    var admitted := Admit(w.s.(reading := false), m).state;
    var kept := Below(w.chain, m.num);
    KeptChain(valid, w, m);
    AdmitOk(valid, w, m);
    PersistDb(valid, w.init, w.base, kept, admitted, m);
    PersistMemory(valid, admitted, m);
    NextAccepted(valid, w, m);
  }

  lemma AcceptKeepsMemory(valid: Bytes -> bool, w: World, m: Block)
    requires Inv(valid, w) && Enabled(w, Receive(m))
    requires Admit(w.s.(reading := false), m).outcome == Done
    ensures var w' := Next(valid, w, Receive(m));
            !w'.s.stopped ==> MemoryOk(w')
  {
    hide Replay, Copies, StartOk, Coherent, Admit, Persist, Below, DbOk, ChainOk, Next, Committable;
    var admitted := Admit(w.s.(reading := false), m);
    var kept := Below(w.chain, m.num);
    KeptChain(valid, w, m);
    AdmitOk(valid, w, m);
    PersistMemory(valid, admitted.state, m);
    NextAccepted(valid, w, m);
    var e := Persist(valid, admitted.state, m);
    if e.outcome == Done {
      assert Gated(e.state);
    }
  }

  lemma ReceiveKeeps(valid: Bytes -> bool, w: World, m: Block)
    requires Inv(valid, w) && Enabled(w, Receive(m))
    ensures Inv(valid, Next(valid, w, Receive(m)))
  {
    hide Replay, StartOk, ChainOk, DbOk, MemoryOk, Admit, Persist;
    if Admit(w.s.(reading := false), m).outcome == Done {
      AcceptKeepsChain(valid, w, m);
      AcceptKeepsDb(valid, w, m);
      AcceptKeepsMemory(valid, w, m);
    } else {
      RejectKeeps(valid, w, m);
    }
  }

  // ---- Starting ----

  /** What is left when everything uncommitted is undone: the replay of the committed blocks,
      with no undo copy. */
  lemma CommittedDb(valid: Bytes -> bool, w: World)
    requires Inv(valid, w)
    ensures var back := w.s.db.RollbackTo(w.s.db.Floor());
            var k := w.committed - w.base;
            && 0 <= k <= |w.chain|
            && Below(w.chain, w.committed + 1) == w.chain[..k]
            && ChainOk(w.init, w.base, w.chain[..k])
            && LibAfter(w.init, w.base, w.chain[..k]) <= w.lib
            && DbOk(valid, w.init, w.base, w.chain[..k], back)
            && back.stack == []
            && back.current.state == (if k == 0 then w.init.state else [RowOf(w.chain[k - 1])])
            && (0 < k ==> w.chain[k - 1].num == w.committed)
  {
    hide Replay, Copies, Coherent, Gated, MemoryOk;
    var k := w.committed - w.base;
    BelowAt(w.init, w.base, w.chain, w.committed + 1);
    assert w.chain[..|w.chain|] == w.chain;
    DbRollback(valid, w.init, w.base, w.chain, w.s.db, k);
    ReplayState(valid, w.init, w.chain[..k]);
    ChainPrefix(w.init, w.base, w.chain, k);
    if 0 < k {
      assert w.chain[..k][k - 1] == w.chain[k - 1];
    }
  }

  /** A new process starts with its head at the committed height and its fields as the last
      committed block left them. */
  lemma StartFinds(valid: Bytes -> bool, w: World, cfg: Config)
    requires Inv(valid, w) && Enabled(w, Start(cfg))
    ensures StartSpec(cfg, w.s.db).state.head == w.committed
    ensures StartSpec(cfg, w.s.db).outcome == Done ==>
              var s := StartSpec(cfg, w.s.db).state;
              StateRow(s.head, s.headId, s.irreversible, s.irreversibleId)
              == LastRow(w.init, w.base, Below(w.chain, w.committed + 1))
  {
    hide Replay, Copies, Coherent, Gated, MemoryOk, DbOk, ChainOk, LibAfter, Below, TablesOk;
    CommittedDb(valid, w);
  }

  lemma StartKeepsDb(valid: Bytes -> bool, w: World, cfg: Config)
    requires Inv(valid, w) && Enabled(w, Start(cfg))
    ensures var w' := Next(valid, w, Start(cfg));
            && ChainOk(w.init, w.base, w'.chain)
            && LibAfter(w.init, w.base, w'.chain) <= w'.lib
            && DbOk(valid, w.init, w.base, w'.chain, w'.s.db)
            && w'.committed == w.base + |w'.chain| - |w'.s.db.stack|
            && w'.committed <= w'.lib && w'.init == w.init && w'.base == w.base && w'.lib == w.lib
  {
    hide Replay, Copies, ChainOk, LibAfter, Below, DbOk, StartOk, MemoryOk;
    CommittedDb(valid, w);
  }

  lemma StartKeepsMemory(valid: Bytes -> bool, w: World, cfg: Config)
    requires Inv(valid, w) && Enabled(w, Start(cfg))
    ensures var w' := Next(valid, w, Start(cfg));
            !w'.s.stopped ==> MemoryOk(w')
  {
    hide Inv, Below, LastRow;
    StartFinds(valid, w, cfg);
  }

  lemma StartKeeps(valid: Bytes -> bool, w: World, cfg: Config)
    requires Inv(valid, w) && Enabled(w, Start(cfg))
    ensures Inv(valid, Next(valid, w, Start(cfg)))
  {
    hide Replay, ChainOk, LibAfter, DbOk, StartOk, MemoryOk, Next;
    StartKeepsDb(valid, w, cfg);
    StartKeepsMemory(valid, w, cfg);
  }

  // ---- Processes that end within a step ----

  /** A process that ends with some uncommitted revisions undone leaves a shorter chain. */
  lemma RevertKeeps(valid: Bytes -> bool, w: World, n: nat)
    requires Inv(valid, w) && Enabled(w, Revert(n))
    ensures Inv(valid, Next(valid, w, Revert(n)))
    ensures Next(valid, w, Revert(n)).s.db == w.s.db.RollbackTo(w.s.db.revision - n)
  {
    hide Replay, Copies, StartOk, MemoryOk, ChainOk, LibAfter;
    var k := |w.chain| - n;
    UndoIsRollback(w.s.db, n);
    DbRollback(valid, w.init, w.base, w.chain, w.s.db, k);
    ChainPrefix(w.init, w.base, w.chain, k);
    assert w.chain[..|w.chain|] == w.chain;
  }

  /** The chains and databases a process may leave that ends before it commits. */
  lemma CutOffDb(valid: Bytes -> bool, w: World, m: Block)
    requires Inv(valid, w) && Enabled(w, DieStoring(m))
    ensures var db := Admit(w.s.(reading := false), m).state.db;
            var kept := Below(w.chain, m.num);
            var stored := db.StartSession().(current := ApplyBlock(valid, db.current, m));
            && ChainOk(w.init, w.base, kept) && ChainOk(w.init, w.base, kept + [m])
            && LibAfter(w.init, w.base, kept) <= m.lib && LibAfter(w.init, w.base, kept + [m]) <= m.lib
            && DbOk(valid, w.init, w.base, kept, db) && DbOk(valid, w.init, w.base, kept + [m], stored)
            && |kept| - |db.stack| == |kept + [m]| - |stored.stack| == w.committed - w.base
  {
    hide Replay, Copies, StartOk, Admit, Below, DbOk, ChainOk, LibAfter, MemoryOk, ApplyBlock;
    KeptChain(valid, w, m);
    AdmitOk(valid, w, m);
    DbPush(valid, w.init, w.base, Below(w.chain, m.num), Admit(w.s.(reading := false), m).state.db, m);
    ChainExtend(w.init, w.base, Below(w.chain, m.num), m);
  }

  /** A process that ends before it commits what it stored leaves the block with an undo copy. */
  lemma DieStoringKeeps(valid: Bytes -> bool, w: World, m: Block)
    requires Inv(valid, w) && Enabled(w, DieStoring(m))
    ensures Inv(valid, Next(valid, w, DieStoring(m)))
  {
    hide StartOk, Admit, Below, DbOk, ChainOk, LibAfter, MemoryOk, Next, Db.StartSession;
    AdmitOk(valid, w, m);
    CutOffDb(valid, w, m);
    NextCutOff(valid, w, m);
  }

  lemma NextCutOff(valid: Bytes -> bool, w: World, m: Block)
    requires var e := Admit(w.s.(reading := false), m);
             !e.stored && (Rejected(e.outcome) ==> Below(w.chain, m.num) == w.chain)
    ensures var admitted := Admit(w.s.(reading := false), m).state;
            var w' := Next(valid, w, DieStoring(m));
            var kept := Below(w.chain, m.num);
            && w' == w.(s := w'.s, lib := Max(w.lib, m.lib), pending := w'.pending, chain := w'.chain)
            && w'.s.stopped
            && ((w'.s.db == admitted.db && w'.chain == kept)
                || (w'.s.db == admitted.db.StartSession().(current := ApplyBlock(valid, admitted.db.current, m))
                    && w'.chain == kept + [m]))
  {
    hide Admit, CacheRows, ApplyBlock, Below, Max, Db.StartSession;
  }

  // ---- The other steps ----

  lemma RunningHead(valid: Bytes -> bool, w: World)
    requires Inv(valid, w) && !w.s.stopped
    ensures w.s.head == w.base + |w.chain|
    ensures w.s.irreversible <= w.lib
  {
    hide Replay, Copies, Coherent, TablesOk, DbOk, Gated;
  }

  lemma PollKeeps(valid: Bytes -> bool, w: World, queueFull: bool)
    requires Inv(valid, w) && Enabled(w, Poll(queueFull))
    ensures Inv(valid, Next(valid, w, Poll(queueFull)))
  {
    hide Replay, Copies, Coherent, DbOk, StartOk, ChainOk, LibAfter, LastRow;
    if PollSpec(w.s, queueFull).outcome == EndReached {
      hide MemoryOk;
      RunningHead(valid, w);
      DbCommit(valid, w.init, w.base, w.chain, w.s.db, Committable(w.s));
    } else {
      hide CommitSpec;
      assert Gated(Next(valid, w, Poll(queueFull)).s);
    }
  }

  lemma AskAbiKeeps(valid: Bytes -> bool, w: World, name: Name)
    requires Inv(valid, w) && Enabled(w, AskAbi(name))
    ensures Inv(valid, Next(valid, w, AskAbi(name)))
  {
    hide Copies, ChainOk, LibAfter, StartOk, Window, HistoryUpTo;
    ReplayOk(valid, w.init, w.base, w.chain);
  }

  /** Steps that leave the database, the chain and the cache alone. */
  lemma SmallStepKeeps(valid: Bytes -> bool, w: World, step: Step)
    requires Inv(valid, w) && Enabled(w, step)
    requires step.NoBlock? || step.Ack? || step.Slowdown? || step.Deliver?
    ensures Inv(valid, Next(valid, w, step))
  {
    hide Replay, DbOk, StartOk, ChainOk, Coherent, LibAfter, Truncate, StartSpec, ReceiveSpec, PollSpec, AbiReadySpec;
  }

  lemma StepKeeps(valid: Bytes -> bool, w: World, step: Step)
    requires Inv(valid, w) && Enabled(w, step)
    ensures Inv(valid, Next(valid, w, step))
  {
    hide Inv, Next, Enabled;
    match step
    case Start(cfg) => StartKeeps(valid, w, cfg);
    case Receive(m) => ReceiveKeeps(valid, w, m);
    case Poll(queueFull) => PollKeeps(valid, w, queueFull);
    case AskAbi(name) => AskAbiKeeps(valid, w, name);
    case Revert(n) => RevertKeeps(valid, w, n);
    case DieStoring(m) => DieStoringKeeps(valid, w, m);
    case _ => SmallStepKeeps(valid, w, step);
  }

  lemma InitialInv(valid: Bytes -> bool, w: World)
    requires Initial(valid, w)
    ensures Inv(valid, w)
  {
  }

  lemma {:induction false} RunKeeps(valid: Bytes -> bool, w: World, steps: seq<Step>)
    requires Inv(valid, w) && EnabledRun(valid, w, steps)
    ensures Inv(valid, Run(valid, w, steps))
    decreases |steps|
  {
    if steps != [] {
      StepKeeps(valid, w, steps[0]);
      RunKeeps(valid, Next(valid, w, steps[0]), steps[1..]);
    }
  }
}
