/** The scan-mode receiver process: its fields, its loops over the database, and each entry
    point proved to do what ReceiverSpec says. */
module Receiver {
  import opened Options
  import opened Chainbase
  import opened Store
  import opened ReceiverSpec
  import opened Uint32
  import opened TableProperties

  /** The least element of a non-empty index, which its iteration begins with. */
  ghost predicate IsFirst(blocks: map<nat, BlockId>, from: nat, first: nat) {
    first in blocks && from <= first && forall k :: k in blocks && from <= k ==> first <= k
  }

  /** The first row at or after from, or none: an index's lower bound. */
  method LowerBound(blocks: map<nat, BlockId>, from: nat) returns (at: Option<nat>)
    ensures at.Some? ==> IsFirst(blocks, from, at.value)
    ensures at.None? ==> forall k :: k in blocks ==> k < from
  {
    var left := blocks.Keys;
    at := None;
    while left != {}
      invariant left <= blocks.Keys
      invariant at.Some? ==> at.value in blocks && from <= at.value
      invariant forall k :: k in blocks && from <= k && k !in left ==> at.Some? && at.value <= k
      decreases left
    {
      var k :| k in left;
      left := left - {k};
      if from <= k && (at.None? || k < at.value) {
        at := Some(k);
      }
    }
  }

  class Receiver {
    const valid: Bytes -> bool
    const cfg: Config
    var head: nat
    var headId: BlockId
    var irreversible: nat
    var irreversibleId: BlockId
    var acked: nat
    var forkedAt: nat
    var pauseMsec: nat
    var slowdown: bool
    var reading: bool
    var stopped: bool
    var imported: set<Name>
    var context: map<Name, Bytes>
    var db: Db<Tables>
    var published: seq<Event>

    ghost function Abs(): State
      reads this
    {
      State(cfg, head, headId, irreversible, irreversibleId, acked, forkedAt, pauseMsec, slowdown,
            reading, stopped, Cache(imported, context), db)
    }

    constructor (valid: Bytes -> bool, cfg: Config, db: Db<Tables>)
      ensures this.valid == valid && this.cfg == cfg && published == []
      ensures Abs() == State(cfg, 0, 0, 0, 0, 0, 0, 0, false, false, false, EMPTY_CACHE, db)
    {
      this.valid, this.cfg, this.db := valid, cfg, db;
      head, headId, irreversible, irreversibleId := 0, 0, 0, 0;
      acked, forkedAt, pauseMsec := 0, 0, 0;
      slowdown, reading, stopped := false, false, false;
      imported, context := {}, map[];
      published := [];
    }

    // ---- Starting ----

    method RevertUncommittedRevisions() returns (depth: nat)
      modifies this`db
      ensures depth == |old(db).stack|
      ensures db == old(db).RollbackTo(old(db).Floor())
    {
      depth := |db.stack|;
      while db.stack != []
        invariant old(db).Floor() <= db.revision <= old(db).revision
        invariant db == old(db).RollbackTo(db.revision)
        decreases |db.stack|
      {
        UndoAfterRollback(old(db), db.revision);
        db := db.Undo();
      }
    }

    method Publish(e: Event)
      modifies this`published
      ensures published == old(published) + [e]
    {
      published := published + [e];
    }

    /** The fields the state row holds, or the first head of a scan. */
    method RestoreFields() returns (known: bool)
      requires Abs() == State(cfg, 0, 0, 0, 0, 0, 0, 0, false, false, false, EMPTY_CACHE, db)
      modifies this`head, this`headId, this`irreversible, this`irreversibleId, this`forkedAt, this`published
      ensures known == (db.current.state != [])
      ensures Abs() == Restored(cfg, db)
      ensures published == old(published) + (if known then [] else [ForkAt(head + 1, 0, Resync, 0)])
    {
      known := |db.current.state| > 0;
      if known {
        var row := db.current.state[0];
        head, headId, irreversible, irreversibleId := row.head, row.headId, row.irreversible, row.irreversibleId;
      } else {
        if cfg.startBlock > 0 {
          head := cfg.startBlock - 1;
        }
        forkedAt := head + 1;
        Publish(ForkAt(head + 1, 0, Resync, 0));
      }
    }

    static lemma BlankFields(cfg: Config, db: Db<Tables>)
      ensures var s := Restored(cfg, db); !s.reading && !s.stopped && s.acked == 0 && s.cache == EMPTY_CACHE
    {
    }

    method AnnounceRestart(depth: nat)
      modifies this`forkedAt, this`acked, this`published
      ensures Abs() == old(Abs()).(forkedAt := if depth > 0 then head + 1 else old(forkedAt),
                                   acked := if cfg.willAck then head else old(acked))
      ensures published == old(published) +
                           (if depth > 0 then [ForkAt(head + 1, depth, Restart, irreversible)] else [])
    {
      if depth > 0 {
        forkedAt := head + 1;
        Publish(ForkAt(head + 1, depth, Restart, irreversible));
      }
      if cfg.willAck {
        acked := head;
      }
    }

    method LoadState() returns (why: Outcome)
      requires Abs() == State(cfg, 0, 0, 0, 0, 0, 0, 0, false, false, false, EMPTY_CACHE, db)
      modifies this
      ensures var e := StartSpec(cfg, old(db));
              Abs() == e.state && published == old(published) + e.events && why == e.outcome
    {
      hide Db.RollbackTo, Db.Floor, Restored;
      var depth := RevertUncommittedRevisions();
      var known := RestoreFields();
      ghost var restored := Abs();
      assert !reading && restored.cache == EMPTY_CACHE && restored.acked == 0 by { BlankFields(cfg, db); }
      if known && cfg.startBlock > 0 {
        stopped := true;
        return StartBlockGiven;
      }
      AnnounceRestart(depth);
      if head >= cfg.endBlock {
        stopped := true;
        return PastEnd;
      }
      InitContractAbiCtxt();
      return Done;
    }

    // ---- The ABI store ----

    method InitContractAbiCtxt()
      modifies this`imported, this`context
      ensures Abs() == old(Abs()).(cache := EMPTY_CACHE)
    {
      imported, context := {}, map[];
    }

    /** Registering an ABI fails on bytes that are none, and never replaces one. */
    method SetAbiBin(name: Name, abi: Bytes) returns (ok: bool)
      modifies this`context
      ensures ok == valid(abi) && context == Register(valid, old(context), name, abi)
    {
      ok := valid(abi);
      if ok && name !in context {
        context := context[name := abi];
      }
    }

    /** The account's revision of the block is created, or overwritten when there is one. */
    method SaveContractAbiHistory(name: Name, abi: Bytes)
      modifies this`db
      ensures db == old(db).(current := old(db).current.(
                history := old(db).current.history[(name, head) := abi]))
    {
      db := db.(current := db.current.(history := db.current.history[(name, head) := abi]));
    }

    method ClearContractAbi(name: Name)
      modifies this`db, this`imported, this`context
      ensures db == old(db).(current := ClearAbi(old(db).current, name, head))
      ensures Cache(imported, context) == old(if name in imported then EMPTY_CACHE else Cache(imported, context))
    {
      if name in imported {
        InitContractAbiCtxt();
      }
      if name in db.current.abis {
        db := db.(current := db.current.(abis := db.current.abis - {name}));
        SaveContractAbiHistory(name, []);
      }
    }

    method SaveContractAbi(name: Name, abi: Bytes)
      requires abi != []
      modifies this`db, this`imported, this`context
      ensures db == old(db).(current := SaveAbi(valid, old(db).current, name, abi, head))
      ensures Cache(imported, context)
              == CacheRow(valid, old(Cache(imported, context)), AccountRow(true, name, abi))
    {
      if name in imported {
        InitContractAbiCtxt();
      }
      var ok := SetAbiBin(name, abi);
      if ok {
        imported := imported + {name};
        db := db.(current := db.current.(abis := db.current.abis[name := abi]));
      }
      SaveContractAbiHistory(name, abi);
    }

    method ReceiveDeltas(rows: seq<AccountRow>)
      modifies this`db, this`imported, this`context
      ensures db == old(db).(current := ApplyRows(valid, old(db).current, rows, head))
      ensures Cache(imported, context) == CacheRows(valid, old(Cache(imported, context)), rows)
    {
      for i := 0 to |rows|
        invariant db == old(db).(current := ApplyRows(valid, old(db).current, rows[..i], head))
        invariant Cache(imported, context) == CacheRows(valid, old(Cache(imported, context)), rows[..i])
      {
        assert rows[..i + 1][..i] == rows[..i] && rows[..i + 1][i] == rows[i];
        var row := rows[i];
        if row.present {
          if row.abi == [] {
            ClearContractAbi(row.name);
          } else {
            SaveContractAbi(row.name, row.abi);
          }
        }
      }
      assert rows[..|rows|] == rows;
    }

    method GetContractAbiReady(name: Name) returns (ready: bool)
      modifies this`imported, this`context
      ensures (Abs(), ready) == AbiReadySpec(valid, old(Abs()), name)
    {
      if name in imported {
        return true;
      }
      if name in db.current.abis {
        var ok := SetAbiBin(name, db.current.abis[name]);
        imported := imported + {name};
        return true;
      }
      return false;
    }

    // ---- Receiving a block ----

    /** Truncation removes rows from the front of the index. The row just added is not below
        the irreversible block, so the front never runs past the last row. */
    method AddReceivedBlock(num: nat, id: BlockId)
      requires irreversible < num && num !in db.current.blocks
      modifies this`db
      ensures db == old(db).(current := old(db).current.(
                blocks := AddBlock(old(db).current.blocks, num, id, irreversible)))
    {
      var all := db.current.blocks[num := id];
      db := db.(current := db.current.(blocks := all));
      assert num in db.current.blocks;
      var first := LowerBound(db.current.blocks, 0);
      while first.value < irreversible
        invariant first.Some? && IsFirst(db.current.blocks, 0, first.value)
        invariant num in db.current.blocks
        invariant db == old(db).(current := old(db).current.(blocks := db.current.blocks))
        invariant forall k :: k in db.current.blocks ==> k in all && db.current.blocks[k] == all[k]
        invariant forall k :: k in all && irreversible <= k ==> k in db.current.blocks
        decreases db.current.blocks.Keys
      {
        db := db.(current := db.current.(blocks := db.current.blocks - {first.value}));
        assert num in db.current.blocks;
        first := LowerBound(db.current.blocks, 0);
      }
      assert db.current.blocks == AddBlock(old(db).current.blocks, num, id, irreversible);
    }

    method SaveState()
      modifies this`db
      ensures db == old(db).(current := WithState(old(db).current,
                StateRow(head, headId, irreversible, irreversibleId)))
    {
      var row := StateRow(head, headId, irreversible, irreversibleId);
      if |db.current.state| > 0 {
        db := db.(current := db.current.(state := db.current.state[0 := row]));
      } else {
        db := db.(current := db.current.(state := [row]));
      }
    }

    method CommitDb()
      modifies this`db
      ensures Abs() == CommitSpec(old(Abs()))
    {
      hide Db.Commit;
      var commitRevision := irreversible;
      if cfg.willAck && acked < commitRevision {
        commitRevision := acked;
      }
      db := db.Commit(commitRevision);
    }

    method RollBack(num: BlockNum)
      requires RollbackEnds(db, num)
      modifies this`db
      ensures db == RollbackSpec(old(db), num)
    {
      while db.revision >= num
        invariant old(db).revision < num ==> db == old(db)
        invariant num <= old(db).revision ==>
                    && old(db).Floor() <= num - 1 <= db.revision <= old(db).revision
                    && db == old(db).RollbackTo(db.revision)
        decreases db.revision
      {
        UndoAfterRollback(old(db), db.revision);
        db := db.Undo();
      }
    }

    /** The database revision is moved up where it lags behind the block. */
    method RaiseRevision(num: BlockNum) returns (ok: bool)
      modifies this`db
      ensures ok == (old(db).revision < num - 1 ==> old(db).CanSetRevision(num - 1))
      ensures db == if ok && old(db).revision < num - 1 then old(db).(revision := num - 1) else old(db)
    {
      if db.revision < num - 1 {
        if !db.CanSetRevision(num - 1) {
          return false;
        }
        db := db.(revision := num - 1);
      }
      return true;
    }

    method AnnounceFork(m: Block, depth: nat)
      modifies this`acked, this`forkedAt, this`published
      ensures acked == (if cfg.willAck && old(acked) > m.num - 1 then m.num - 1 else old(acked))
      ensures forkedAt == m.num
      ensures published == old(published) + [ForkAt(m.num, depth, Network, m.lib)]
    {
      if cfg.willAck && acked > m.num - 1 {
        acked := m.num - 1;
      }
      forkedAt := m.num;
      Publish(ForkAt(m.num, depth, Network, m.lib));
    }

    method TakeFork(m: Block) returns (why: Outcome)
      requires m.num <= head && RollbackEnds(db, m.num)
      modifies this`db, this`imported, this`context, this`stopped, this`acked, this`forkedAt, this`published
      ensures why == (if RollbackSpec(old(db), m.num).revision <= 0 then NoUndoStack else Done)
      ensures var rolled := old(Abs()).(db := RollbackSpec(old(db), m.num), cache := EMPTY_CACHE);
              if why == NoUndoStack then
                Abs() == rolled.(stopped := true) && published == old(published)
              else
                && Abs() == rolled.(acked := if cfg.willAck && old(acked) > m.num - 1 then m.num - 1 else old(acked),
                                    forkedAt := m.num)
                && published == old(published) + [ForkAt(m.num, old(head) - m.num, Network, m.lib)]
    {
      hide RollbackSpec, RollbackEnds;
      var depth := head - m.num;
      InitContractAbiCtxt();
      RollBack(m.num);
      if db.revision <= 0 {
        stopped := true;
        return NoUndoStack;
      }
      AnnounceFork(m, depth);
      return Done;
    }

    method CheckBlock(m: Block) returns (why: Outcome)
      requires !reading && Admit(Abs(), m).outcome != Hangs
      modifies this`db, this`imported, this`context, this`stopped, this`acked, this`forkedAt, this`published
      ensures var e := Admit(old(Abs()), m);
              Abs() == e.state && published == old(published) + e.events && why == e.outcome
    {
      hide RollbackSpec, RollbackEnds, Db.CanSetRevision;
      if m.lib < irreversible {
        stopped := true;
        return LibWentBack;
      }
      var ok := RaiseRevision(m.num);
      if !ok {
        stopped := true;
        return RevisionRefused;
      }
      if m.num <= m.lib {
        return Done;
      }
      assert irreversible <= m.num;  // so the check for a block below it cannot fail here
      if m.num <= head {
        why := TakeFork(m);
      } else if head > 0 && head > cfg.startBlock && m.prev != Some(headId) {
        stopped := true;
        return PrevMismatch;
      } else {
        return Done;
      }
    }

    /** The undo session of a block: what is written is kept as a new revision, or undone when
        the block turns out to be a duplicate or undecodable. */
    method WriteBlock(m: Block) returns (why: Outcome)
      requires head == m.num && headId == m.id && irreversible == m.lib && irreversibleId == m.libId
      modifies this`db, this`imported, this`context
      ensures why == (if m.num > m.lib && m.num in old(db).current.blocks then DuplicateBlock
                      else if m.fault == InDeltas then DeltaUnreadable
                      else Done)
      ensures Cache(imported, context) ==
              if why == DuplicateBlock then old(Cache(imported, context))
              else CacheRows(valid, old(Cache(imported, context)), m.rows)
      ensures db == if why == Done then old(db).StartSession().(current := ApplyBlock(valid, old(db).current, m))
                    else old(db)
    {
      hide CacheRows, ApplyRows, AddBlock, WithState;
      db := db.StartSession();
      if m.num > irreversible {
        if m.num in db.current.blocks {
          db := db.Undo();
          return DuplicateBlock;
        }
        AddReceivedBlock(m.num, m.id);
      }
      assert db.current == old(db).current.(blocks := AddBlock(old(db).current.blocks, m.num, m.id, m.lib)) by {
        NothingAdded(old(db).current, m);
      }
      ReceiveDeltas(m.rows);
      if m.fault == InDeltas {
        db := db.Undo();
        return DeltaUnreadable;
      }
      SaveState();
      return Done;
    }

    static lemma NothingAdded(t: Tables, m: Block)
      ensures m.num <= m.lib ==> t == t.(blocks := AddBlock(t.blocks, m.num, m.id, m.lib))
    {
    }

    method TakeFields(m: Block)
      modifies this`head, this`headId, this`irreversible, this`irreversibleId
      ensures Abs() == TakeHead(old(Abs()), m)
    {
      head, headId, irreversible, irreversibleId := m.num, m.id, m.lib, m.libId;
    }

    method TakeBlock(m: Block) returns (why: Outcome)
      modifies this`head, this`headId, this`irreversible, this`irreversibleId, this`db, this`imported, this`context
      ensures var e := Write(valid, old(Abs()), m);
              Abs() == e.state && published == old(published) && why == e.outcome
    {
      hide CacheRows, ApplyBlock, Db.StartSession;
      TakeFields(m);
      if m.fault == InBlock {
        return BlockUnreadable;
      }
      why := WriteBlock(m);
    }

    method StoreBlock(m: Block) returns (why: Outcome)
      requires !reading
      modifies this
      ensures var e := Persist(valid, old(Abs()), m);
              Abs() == e.state && published == old(published) + e.events && why == e.outcome
    {
      hide CacheRows, ApplyBlock, Db.Commit, Db.StartSession, CommitRevision;
      why := TakeBlock(m);
      if why != Done {
        stopped := true;
        return;
      }
      CommitDb();
      if m.fault == InTraces {
        stopped := true;
        return TraceUnreadable;
      }
      Publish(Completed(head, headId, irreversible));
      return Done;
    }

    method ReceiveResult(m: Block) returns (why: Outcome)
      requires Admit(Abs().(reading := false), m).outcome != Hangs
      modifies this
      ensures var e := ReceiveSpec(valid, old(Abs()), m);
              Abs() == e.state && published == old(published) + e.events && why == e.outcome
    {
      hide Admit, Persist;
      reading := false;
      why := CheckBlock(m);
      if why == Done {
        why := StoreBlock(m);
      }
    }

    // ---- Reading, pausing, acknowledging ----

    method LengthenPause()
      modifies this`pauseMsec
      ensures Abs() == old(Abs()).(pauseMsec := NextPause(old(pauseMsec)))
    {
      if pauseMsec == 0 {
        pauseMsec := 50;
      } else if pauseMsec < 500 {
        pauseMsec := pauseMsec + 50;
      }
    }

    method ContinueRead(queueFull: bool) returns (why: Outcome)
      modifies this
      ensures var e := PollSpec(old(Abs()), queueFull);
              Abs() == e.state && published == old(published) + e.events && why == e.outcome
    {
      hide CommitSpec, NextPause, Sub32;
      if slowdown
         || (cfg.willAck && (forkedAt > 0 || Sub32(head, acked) >= cfg.maxUnconfirmed))
         || queueFull
         || head == Sub32(cfg.endBlock, 1)
      {
        if head == Sub32(cfg.endBlock, 1) && irreversible >= head && (!cfg.willAck || acked == head) {
          CommitDb();
          stopped, reading := true, false;
          return EndReached;
        }
        LengthenPause();
        Publish(Paused(head, acked));
        reading := false;
        return Done;
      }
      pauseMsec, reading := 0, true;
      return Done;
    }

    method AckBlock(num: nat) returns (why: Outcome)
      requires cfg.willAck
      modifies this
      ensures var e := AckSpec(old(Abs()), num);
              Abs() == e.state && published == old(published) && why == e.outcome
    {
      if forkedAt > 0 {
        var awaited := Sub32(forkedAt, 1);
        if num > awaited {
          return Done;
        }
        if num == awaited {
          forkedAt := 0;
        }
      } else if num < acked {
        stopped, reading := true, false;
        return AckWentBack;
      }
      acked := num;
      return Done;
    }

    // ---- Asking the node for blocks ----

    method RequestBlocks() returns (positions: seq<(nat, BlockId)>, start: nat)
      ensures positions == RowsBetween(db.current.blocks, irreversible, head)
      ensures start == head + 1
    {
      var blocks := db.current.blocks;
      positions := [];
      var itr := LowerBound(blocks, irreversible);
      ghost var done: int := irreversible - 1;
      while itr.Some? && itr.value <= head
        invariant irreversible - 1 <= done
        invariant positions == RowsBetween(blocks, irreversible, done)
        invariant itr.Some? ==> done < itr.value && IsFirst(blocks, done + 1, itr.value)
        invariant itr.None? ==> forall k :: k in blocks ==> k <= done
        invariant done <= head || positions == RowsBetween(blocks, irreversible, head)
        decreases head - done
      {
        RowsSkip(blocks, irreversible, done, itr.value - 1);
        positions := positions + [(itr.value, blocks[itr.value])];
        done := itr.value;
        itr := LowerBound(blocks, itr.value + 1);
      }
      if done <= head {
        RowsSkip(blocks, irreversible, done, head);
      }
      start := head + 1;
    }
  }
}
