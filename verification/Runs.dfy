/** Whole runs of the scan-mode receiver: processes that start, read, fork, are acknowledged,
    die and start again on the same database, against a node and a consumer. */
module Runs {
  import opened Chainbase
  import opened Store
  import opened ReceiverSpec
  import opened TableProperties

  datatype Step =
    | Start(cfg: Config)             // a new process, whatever became of the last one
    | Receive(m: Block)
    | NoBlock                        // a message without a block
    | Poll(queueFull: bool)          // decide between reading and pausing
    | Ack(num: nat)
    | Slowdown(pause: bool)
    | AskAbi(name: Name)
    | Deliver                        // the consumer handles the oldest pending event
    | Revert(n: nat)                 // a process ends with n uncommitted revisions undone, unannounced
    | DieStoring(m: Block)           // a process ends before it commits what it stored

  /** The receiver, what is on disk before the first block, and what an observer writes down:
      the surviving messages, the node's last irreversible block, the committed height, the
      highest acknowledged height, the consumer's blocks and the events under way to it. */
  datatype World = World(
    s: State, init: Tables, base: nat,
    chain: seq<Block>, lib: nat, committed: nat, ackHigh: nat,
    view: seq<(nat, BlockId)>, pending: seq<Event>)

  function Max(a: nat, b: nat): nat { if a < b then b else a }
  function Min(a: nat, b: nat): nat { if a < b then a else b }

  /** A fork at num drops the messages numbered num and above. */
  function Below(chain: seq<Block>, num: nat): seq<Block> {
    if chain == [] || chain[|chain| - 1].num < num then chain else Below(chain[..|chain| - 1], num)
  }

  function Truncate(view: seq<(nat, BlockId)>, num: nat): seq<(nat, BlockId)> {
    if view == [] || view[|view| - 1].0 < num then view else Truncate(view[..|view| - 1], num)
  }

  /** The consumer truncates on a fork and appends a completed block. */
  function Handle(view: seq<(nat, BlockId)>, e: Event): seq<(nat, BlockId)> {
    match e
    case ForkAt(num, _, _, _) => Truncate(view, num)
    case Completed(num, id, _) => view + [(num, id)]
    case Paused(_, _) => view
  }

  function HandleAll(view: seq<(nat, BlockId)>, events: seq<Event>): seq<(nat, BlockId)>
    decreases |events|
  {
    if events == [] then view else HandleAll(Handle(view, events[0]), events[1..])
  }

  /** How far a process may commit: to the irreversible block and, when it waits for
      acknowledgements, to the acknowledged one. */
  function Committable(s: State): nat {
    if s.cfg.willAck then Min(s.acked, s.irreversible) else s.irreversible
  }

  /** Without the newest n blocks. */
  function Shorter(chain: seq<Block>, n: nat): seq<Block> {
    if n <= |chain| then chain[..|chain| - n] else []
  }

  /** Failures found before the message changed anything. */
  predicate Rejected(why: Outcome) {
    why in {LibWentBack, RevisionRefused, BelowLib, Hangs, PrevMismatch}
  }

  function Next(valid: Bytes -> bool, w: World, step: Step): World {
    match step
    case Start(cfg) =>
      var e := StartSpec(cfg, w.s.db);
      w.(s := e.state, chain := Below(w.chain, w.committed + 1), pending := e.events,
         ackHigh := Max(w.ackHigh, e.state.acked))
    case Receive(m) =>
      var e := ReceiveSpec(valid, w.s, m);
      var kept := if Rejected(e.outcome) then w.chain else Below(w.chain, m.num);
      w.(s := e.state, lib := Max(w.lib, m.lib), pending := w.pending + e.events,
         chain := if e.stored then kept + [m] else kept,
         committed := if e.stored then Max(w.committed, Min(Committable(e.state), m.num)) else w.committed)
    case NoBlock => w.(s := w.s.(reading := false))
    case Poll(queueFull) =>
      var e := PollSpec(w.s, queueFull);
      w.(s := e.state, pending := w.pending + e.events,
         committed := if e.outcome == EndReached then Max(w.committed, Min(Committable(w.s), w.s.head))
                      else w.committed)
    case Ack(num) =>
      var e := AckSpec(w.s, num);
      w.(s := e.state, ackHigh := Max(w.ackHigh, e.state.acked))
    case Slowdown(pause) => w.(s := w.s.(slowdown := pause))
    case AskAbi(name) => w.(s := AbiReadySpec(valid, w.s, name).0)
    case Deliver =>
      if w.pending == [] then w else w.(view := Handle(w.view, w.pending[0]), pending := w.pending[1..])
    case Revert(n) =>
      w.(s := Halt(w.s.(db := w.s.db.UndoTimes(n))), chain := Shorter(w.chain, n))
    case DieStoring(m) =>
      var e := StoreSpec(valid, w.s, m);
      var kept := if Rejected(e.outcome) then w.chain else Below(w.chain, m.num);
      w.(s := Halt(e.state), lib := Max(w.lib, m.lib), pending := w.pending + e.events,
         chain := if e.stored then kept + [m] else kept)
  }

  /** The tables a new process finds once it has undone what was not committed. */
  function Reverted(w: World): Tables {
    w.s.db.RollbackTo(w.s.db.Floor()).current
  }

  /** The messages a reading process may get. */
  predicate Expected(w: World, m: Block) {
    && !w.s.stopped && w.s.reading
    && w.lib <= m.lib
    && (m.num == w.s.head + 1 || m.lib < m.num <= w.s.head)
  }

  /** When a step can happen, with what is expected of the node, the operator and the consumer
      and not checked by the receiver. */
  predicate Enabled(w: World, step: Step) {
    match step
    case Start(cfg) =>
      0 < cfg.maxUnconfirmed && (Reverted(w).state == [] ==> StartHead(cfg) == w.base)
    case Receive(m) => Expected(w, m)
    case NoBlock => !w.s.stopped && w.s.reading
    case Poll(_) => !w.s.stopped && !w.s.reading
    case Ack(num) => w.s.cfg.willAck && num <= w.s.head
    case Slowdown(_) => true
    case AskAbi(_) => !w.s.stopped
    case Deliver => w.pending != []
    case Revert(n) => n <= |w.s.db.stack|
    case DieStoring(m) => Expected(w, m)
  }

  predicate EnabledRun(valid: Bytes -> bool, w: World, steps: seq<Step>)
    decreases |steps|
  {
    steps == [] || (Enabled(w, steps[0]) && EnabledRun(valid, Next(valid, w, steps[0]), steps[1..]))
  }

  function Run(valid: Bytes -> bool, w: World, steps: seq<Step>): World
    decreases |steps|
  {
    if steps == [] then w else Run(valid, Next(valid, w, steps[0]), steps[1..])
  }

  lemma NoSteps(valid: Bytes -> bool, w: World)
    ensures EnabledRun(valid, w, []) && Run(valid, w, []) == w
  {
  }

  lemma TakeStep(valid: Bytes -> bool, w: World, steps: seq<Step>)
    requires steps != [] && Enabled(w, steps[0]) && EnabledRun(valid, Next(valid, w, steps[0]), steps[1..])
    ensures EnabledRun(valid, w, steps)
    ensures Run(valid, w, steps) == Run(valid, Next(valid, w, steps[0]), steps[1..])
  {
    hide Enabled, Next;
  }

  lemma {:induction false} RunThen(valid: Bytes -> bool, w: World, first: seq<Step>, more: seq<Step>)
    requires EnabledRun(valid, w, first) && EnabledRun(valid, Run(valid, w, first), more)
    ensures EnabledRun(valid, w, first + more)
    ensures Run(valid, w, first + more) == Run(valid, Run(valid, w, first), more)
    decreases |first|
  {
    hide Enabled, Next;
    if first == [] {
      assert first + more == more;
    } else {
      assert (first + more)[1..] == first[1..] + more;
      RunThen(valid, Next(valid, w, first[0]), first[1..], more);
    }
  }

  const NO_CONFIG := Config(0, 0, false, 1)

  function Blank(init: Tables): State {
    State(NO_CONFIG, 0, 0, 0, 0, 0, 0, 0, false, false, true, EMPTY_CACHE, Db(init, [], 0))
  }

  /** Before the first process: a database that was just created or restored, and a node whose
      last irreversible block is at least base. */
  ghost predicate Initial(valid: Bytes -> bool, w: World) {
    && StartOk(valid, w.init, w.base)
    && StartLib(w.init, w.base) <= w.lib && w.base <= w.lib
    && w.s == Blank(w.init)
    && w.chain == [] && w.committed == w.base && w.ackHigh == w.base
    && w.view == [] && w.pending == []
  }

  /** A database that was just created, and a node whose last irreversible block is lib. */
  function NewWorld(lib: nat): World {
    World(Blank(EMPTY_TABLES), EMPTY_TABLES, 0, [], lib, 0, 0, [], [])
  }

  // ---- The invariant ----

  /** The replays of the chain's n longest proper prefixes, shortest first. */
  ghost function Copies(valid: Bytes -> bool, init: Tables, chain: seq<Block>, n: nat): (copies: seq<Tables>)
    requires n <= |chain|
    ensures |copies| == n
  {
    if n == 0 then []
    else
      var before := chain[..|chain| - 1];
      Copies(valid, init, before, n - 1) + [Replay(valid, init, before)]
  }

  /** The database holds the replay of the chain, and its undo copies the replays of the
      chain's prefixes. */
  ghost predicate DbOk(valid: Bytes -> bool, init: Tables, base: nat, chain: seq<Block>, db: Db<Tables>) {
    && |db.stack| <= |chain|
    && db.current == Replay(valid, init, chain)
    && db.stack == Copies(valid, init, chain, |db.stack|)
    && (if chain == [] then db.revision <= base else db.revision == base + |chain|)
  }

  /** The row the receiver's own fields must agree with. */
  function LastRow(init: Tables, base: nat, chain: seq<Block>): StateRow {
    if chain != [] then RowOf(chain[|chain| - 1])
    else if init.state != [] then init.state[0]
    else StateRow(base, 0, 0, 0)
  }

  /** How acknowledgements, forks and reading are tied together. */
  ghost predicate Gated(s: State) {
    && (s.cfg.willAck ==>
          && s.acked <= s.head
          && (s.forkedAt == 0 ==> s.head - s.acked <= s.cfg.maxUnconfirmed)
          && (s.forkedAt > 0 ==>
                s.acked <= s.forkedAt - 1 && (s.head == s.forkedAt || s.head == s.forkedAt - 1) && !s.reading)
          && (s.reading ==> s.head - s.acked < s.cfg.maxUnconfirmed))
    && s.head < s.cfg.endBlock
    && (s.reading ==> s.head < s.cfg.endBlock - 1)
  }

  /** Every ABI the cache claims to hold is the account's latest ABI. */
  ghost predicate Coherent(c: Cache, abis: map<Name, Bytes>) {
    && c.context.Keys == c.imported
    && (forall a :: a in c.imported ==> a in abis && c.context[a] == abis[a])
  }

  ghost predicate MemoryOk(w: World) {
    && StateRow(w.s.head, w.s.headId, w.s.irreversible, w.s.irreversibleId) == LastRow(w.init, w.base, w.chain)
    && 0 < w.s.cfg.maxUnconfirmed
    && Gated(w.s)
    && Coherent(w.s.cache, w.s.db.current.abis)
  }

  ghost predicate Inv(valid: Bytes -> bool, w: World) {
    && StartOk(valid, w.init, w.base)
    && ChainOk(w.init, w.base, w.chain)
    && w.base <= w.lib && LibAfter(w.init, w.base, w.chain) <= w.lib
    && DbOk(valid, w.init, w.base, w.chain, w.s.db)
    && w.committed == w.base + |w.chain| - |w.s.db.stack|
    && w.committed <= w.lib
    && (!w.s.stopped ==> MemoryOk(w))
  }

  // ---- Chains ----

  lemma {:induction false} BelowAt(init: Tables, base: nat, chain: seq<Block>, num: nat)
    requires ChainOk(init, base, chain) && base < num
    ensures Below(chain, num) == if num - 1 - base < |chain| then chain[..num - 1 - base] else chain
  {
    if chain != [] && num <= chain[|chain| - 1].num {
      var shorter := chain[..|chain| - 1];
      BelowAt(init, base, shorter, num);
      assert chain[..num - 1 - base] == shorter[..num - 1 - base];
    }
  }

  // ---- The database along a chain ----

  /** Cutting the chain back to k blocks cuts the copies back to those of the shorter chain. */
  lemma {:induction false} CopiesCut(valid: Bytes -> bool, init: Tables, chain: seq<Block>, n: nat, k: nat)
    requires n <= |chain| && |chain| - n <= k < |chain|
    ensures var floor := |chain| - n;
            && Copies(valid, init, chain, n)[k - floor] == Replay(valid, init, chain[..k])
            && Copies(valid, init, chain, n)[..k - floor] == Copies(valid, init, chain[..k], k - floor)
  {
    var before := chain[..|chain| - 1];
    assert before[..k] == chain[..k];
    if k < |before| {
      CopiesCut(valid, init, before, n - 1, k);
    }
  }

  /** The newest copies are those of a smaller count. */
  lemma {:induction false} CopiesNewest(valid: Bytes -> bool, init: Tables, chain: seq<Block>, n: nat, keep: nat)
    requires keep <= n <= |chain|
    ensures Copies(valid, init, chain, n)[n - keep..] == Copies(valid, init, chain, keep)
  {
    if 0 < keep {
      CopiesNewest(valid, init, chain[..|chain| - 1], n - 1, keep - 1);
    }
  }

  lemma DbRollback(valid: Bytes -> bool, init: Tables, base: nat, chain: seq<Block>, db: Db<Tables>, k: nat)
    requires DbOk(valid, init, base, chain, db)
    requires |chain| - |db.stack| <= k <= |chain|
    ensures var r := db.revision - |chain| + k;
            && db.Floor() <= r <= db.revision
            && DbOk(valid, init, base, chain[..k], db.RollbackTo(r))
            && |db.RollbackTo(r).stack| == |db.stack| - |chain| + k
  {
    if k == |chain| {
      assert chain[..k] == chain;
    } else {
      CopiesCut(valid, init, chain, |db.stack|, k);
    }
  }

  lemma DbPush(valid: Bytes -> bool, init: Tables, base: nat, chain: seq<Block>, db: Db<Tables>, m: Block)
    requires DbOk(valid, init, base, chain, db)
    requires db.revision == base + |chain|
    ensures DbOk(valid, init, base, chain + [m], db.StartSession().(current := ApplyBlock(valid, db.current, m)))
  {
    ReplayAppend(valid, init, chain, m);
    assert (chain + [m])[..|chain|] == chain;
  }

  lemma DbCommit(valid: Bytes -> bool, init: Tables, base: nat, chain: seq<Block>, db: Db<Tables>, r: nat)
    requires DbOk(valid, init, base, chain, db)
    ensures DbOk(valid, init, base, chain, db.Commit(r))
    ensures base + |chain| - |db.Commit(r).stack| ==
            Max(base + |chain| - |db.stack|, Min(r, base + |chain|))
  {
    CopiesNewest(valid, init, chain, |db.stack|, |db.Commit(r).stack|);
  }

  /** A new revision for block m, then a commit: the floor rises to r at most. */
  lemma DbStore(valid: Bytes -> bool, init: Tables, base: nat, chain: seq<Block>, db: Db<Tables>, m: Block, r: nat)
    requires DbOk(valid, init, base, chain, db)
    requires db.revision == base + |chain|
    ensures var db' := db.StartSession().(current := ApplyBlock(valid, db.current, m)).Commit(r);
            && DbOk(valid, init, base, chain + [m], db')
            && db'.current == ApplyBlock(valid, db.current, m)
            && base + |chain| + 1 - |db'.stack| ==
               Max(base + |chain| - |db.stack|, Min(r, base + |chain| + 1))
  {
    DbPush(valid, init, base, chain, db, m);
    DbCommit(valid, init, base, chain + [m], db.StartSession().(current := ApplyBlock(valid, db.current, m)), r);
  }
}
