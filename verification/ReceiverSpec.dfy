/** The scan-mode receiver as a pure state machine: what each of its entry points makes of the
    memory of the process, the database and the published events. */
module ReceiverSpec {
  import opened Options
  import opened Chainbase
  import opened Uint32
  import opened Store

  datatype Config = Config(startBlock: nat, endBlock: nat, willAck: bool, maxUnconfirmed: nat)

  /** Decoded ABIs: `imported` is what the receiver believes the context holds. */
  datatype Cache = Cache(imported: set<Name>, context: map<Name, Bytes>)

  const EMPTY_CACHE := Cache({}, map[])

  datatype ForkReason = Network | Restart | Resync

  datatype Event =
    | ForkAt(num: nat, depth: nat, reason: ForkReason, lib: nat)
    | Completed(num: nat, id: BlockId, lib: nat)
    | Paused(head: nat, acknowledged: nat)

  /** How a step ended. Every case but Done stops the reader. */
  datatype Outcome =
    | Done
    | LibWentBack | RevisionRefused | BelowLib | Hangs | NoUndoStack | PrevMismatch
    | BlockUnreadable | DuplicateBlock | DeltaUnreadable | TraceUnreadable
    | AckWentBack | StartBlockGiven | PastEnd | EndReached

  datatype State = State(
    cfg: Config,
    head: nat, headId: BlockId, irreversible: nat, irreversibleId: BlockId,
    acked: nat, forkedAt: nat, pauseMsec: nat, slowdown: bool,
    reading: bool, stopped: bool,
    cache: Cache,
    db: Db<Tables>)

  /** `stored` says whether the step left a new revision in the database. */
  datatype Effect = Effect(state: State, events: seq<Event>, outcome: Outcome, stored: bool)

  function Halt(s: State): State {
    s.(stopped := true, reading := false)
  }

  function Fail(s: State, events: seq<Event>, why: Outcome): Effect {
    Effect(Halt(s), events, why, false)
  }

  // ---- The ABI cache ----

  /** A context keeps the first ABI registered for a name. */
  function Register(valid: Bytes -> bool, context: map<Name, Bytes>, name: Name, abi: Bytes): map<Name, Bytes> {
    if valid(abi) && name !in context then context[name := abi] else context
  }

  function CacheRow(valid: Bytes -> bool, c: Cache, row: AccountRow): Cache {
    if !row.present then c
    else
      var c' := if row.name in c.imported then EMPTY_CACHE else c;
      if row.abi == [] || !valid(row.abi) then c'
      else Cache(c'.imported + {row.name}, Register(valid, c'.context, row.name, row.abi))
  }

  function CacheRows(valid: Bytes -> bool, c: Cache, rows: seq<AccountRow>): Cache {
    if rows == [] then c
    else CacheRow(valid, CacheRows(valid, c, rows[..|rows| - 1]), rows[|rows| - 1])
  }

  /** Asking for an account's ABI: it comes from the context, else from the latest-ABI table. */
  function AbiReadySpec(valid: Bytes -> bool, s: State, name: Name): (State, bool) {
    if name in s.cache.imported then (s, true)
    else if name in s.db.current.abis then
      (s.(cache := Cache(s.cache.imported + {name},
                         Register(valid, s.cache.context, name, s.db.current.abis[name]))), true)
    else (s, false)
  }

  // ---- Receiving a block ----

  /** The rollback loop undoes while the revision is at least num, which ends only if an undo
      copy below num is left. */
  predicate RollbackEnds(db: Db<Tables>, num: BlockNum) {
    db.revision < num || db.Floor() < num
  }

  function RollbackSpec(db: Db<Tables>, num: BlockNum): Db<Tables>
    requires RollbackEnds(db, num)
  {
    if db.revision < num then db else db.RollbackTo(num - 1)
  }

  /** The checks on a message, and the rollback when it starts a fork. */
  function Admit(s: State, m: Block): Effect {
    if m.lib < s.irreversible then Fail(s, [], LibWentBack)
    else if s.db.revision < m.num - 1 && !s.db.CanSetRevision(m.num - 1) then Fail(s, [], RevisionRefused)
    else
      var db := if s.db.revision < m.num - 1 then s.db.(revision := m.num - 1) else s.db;
      var s1 := s.(db := db);
      if m.num <= m.lib then Effect(s1, [], Done, false)
      else if m.num < s.irreversible then Fail(s1, [], BelowLib)
      else if m.num <= s.head then
        if !RollbackEnds(db, m.num) then Fail(s1, [], Hangs)
        else
          var s2 := s1.(db := RollbackSpec(db, m.num), cache := EMPTY_CACHE);
          if s2.db.revision <= 0 then Fail(s2, [], NoUndoStack)
          else
            Effect(s2.(acked := if s.cfg.willAck && s.acked > m.num - 1 then m.num - 1 else s.acked,
                       forkedAt := m.num),
                   [ForkAt(m.num, s.head - m.num, Network, m.lib)], Done, false)
      else if s.head > 0 && s.head > s.cfg.startBlock && m.prev != Some(s.headId) then Fail(s1, [], PrevMismatch)
      else Effect(s1, [], Done, false)
  }

  function CommitRevision(s: State): nat {
    if s.cfg.willAck && s.acked < s.irreversible then s.acked else s.irreversible
  }

  function CommitSpec(s: State): State {
    s.(db := s.db.Commit(CommitRevision(s)))
  }

  function TakeHead(s: State, m: Block): State {
    s.(head := m.num, headId := m.id, irreversible := m.lib, irreversibleId := m.libId)
  }

  /** Taking an admitted block as the new head and writing it in a session of its own; a
      session that fails is undone. */
  function Write(valid: Bytes -> bool, s: State, m: Block): Effect {
    var s1 := TakeHead(s, m);
    if m.fault == InBlock then Effect(s1, [], BlockUnreadable, false)
    else if m.num > m.lib && m.num in s.db.current.blocks then Effect(s1, [], DuplicateBlock, false)
    else
      var s2 := s1.(cache := CacheRows(valid, s1.cache, m.rows));
      if m.fault == InDeltas then Effect(s2, [], DeltaUnreadable, false)
      else
        Effect(s2.(db := s2.db.StartSession().(current := ApplyBlock(valid, s2.db.current, m))), [], Done, true)
  }

  /** Writing an admitted block to the database and publishing its completion. */
  function Persist(valid: Bytes -> bool, s: State, m: Block): Effect {
    var e := Write(valid, s, m);
    if e.outcome != Done then Fail(e.state, [], e.outcome)
    else
      var kept := CommitSpec(e.state);
      if m.fault == InTraces then Effect(Halt(kept), [], TraceUnreadable, true)
      else Effect(kept, [Completed(m.num, m.id, m.lib)], Done, true)
  }

  function ReceiveSpec(valid: Bytes -> bool, s: State, m: Block): Effect {
    var admitted := Admit(s.(reading := false), m);
    if admitted.outcome != Done then admitted
    else
      var kept := Persist(valid, admitted.state, m);
      kept.(events := admitted.events + kept.events)
  }

  /** A message up to the point where its block is stored, before anything is committed. */
  function StoreSpec(valid: Bytes -> bool, s: State, m: Block): Effect {
    var admitted := Admit(s.(reading := false), m);
    if admitted.outcome != Done then admitted
    else
      var kept := Write(valid, admitted.state, m);
      kept.(events := admitted.events)
  }

  // ---- Reading or pausing ----

  predicate AtLastBlock(s: State) {
    s.head == Sub32(s.cfg.endBlock, 1)
  }

  predicate MustPause(s: State, queueFull: bool) {
    || s.slowdown
    || (s.cfg.willAck && (s.forkedAt > 0 || Sub32(s.head, s.acked) >= s.cfg.maxUnconfirmed))
    || queueFull
    || AtLastBlock(s)
  }

  predicate FinishedAtEnd(s: State) {
    AtLastBlock(s) && s.irreversible >= s.head && (!s.cfg.willAck || s.acked == s.head)
  }

  function NextPause(msec: nat): nat {
    if msec == 0 then 50 else if msec < 500 then msec + 50 else msec
  }

  function PollSpec(s: State, queueFull: bool): Effect {
    if !MustPause(s, queueFull) then Effect(s.(pauseMsec := 0, reading := true), [], Done, false)
    else if FinishedAtEnd(s) then Fail(CommitSpec(s), [], EndReached)
    else Effect(s.(pauseMsec := NextPause(s.pauseMsec), reading := false), [Paused(s.head, s.acked)], Done, false)
  }

  // ---- Acknowledgements ----

  function AckSpec(s: State, num: nat): Effect {
    if s.forkedAt > 0 then
      var awaited := Sub32(s.forkedAt, 1);
      if num > awaited then Effect(s, [], Done, false)
      else if num == awaited then Effect(s.(forkedAt := 0, acked := num), [], Done, false)
      else Effect(s.(acked := num), [], Done, false)
    else if num < s.acked then Fail(s, [], AckWentBack)
    else Effect(s.(acked := num), [], Done, false)
  }

  // ---- Starting ----

  function StartHead(cfg: Config): nat {
    if cfg.startBlock > 0 then cfg.startBlock - 1 else 0
  }

  /** The memory of a process that takes over the database db, all of it committed. */
  function Restored(cfg: Config, db: Db<Tables>): State {
    var blank := State(cfg, 0, 0, 0, 0, 0, 0, 0, false, false, false, EMPTY_CACHE, db);
    if db.current.state == [] then blank.(head := StartHead(cfg), forkedAt := StartHead(cfg) + 1)
    else
      var row := db.current.state[0];
      blank.(head := row.head, headId := row.headId,
             irreversible := row.irreversible, irreversibleId := row.irreversibleId)
  }

  /** What a process that finds the database db makes of it before it reads anything. */
  function StartSpec(cfg: Config, db: Db<Tables>): Effect {
    var depth := |db.stack|;
    var back := db.RollbackTo(db.Floor());
    var known := back.current.state != [];
    var s := Restored(cfg, back);
    if known && cfg.startBlock > 0 then Fail(s, [], StartBlockGiven)
    else
      var resync := if known then [] else [ForkAt(s.head + 1, 0, Resync, 0)];
      var restart := if depth > 0 then [ForkAt(s.head + 1, depth, Restart, s.irreversible)] else [];
      var s' := s.(forkedAt := if depth > 0 then s.head + 1 else s.forkedAt,
                   acked := if cfg.willAck then s.head else 0);
      if s'.head >= cfg.endBlock then Fail(s', resync + restart, PastEnd)
      else Effect(s', resync + restart, Done, false)
  }
}
