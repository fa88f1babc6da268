/** Portable snapshots: a database written as a stream of rows, and read back. */
module Snapshot {
  import opened Options
  import opened Chainbase
  import opened Store
  import opened TableProperties
  import opened AbiHistory
  import opened Runs
  import opened Invariant
  import opened Safety

  const MAGIC_NUMBER: nat := 0x67c7d12ce9fc56c1
  const MIN_VERSION: nat := 0
  const MAX_VERSION: nat := 0
  const CURRENT_VERSION: nat := 0

  datatype Row =
    | StateEntry(row: StateRow)
    | BlockEntry(num: nat, id: BlockId)
    | AbiEntry(account: Name, abi: Bytes)
    | HistoryEntry(account: Name, block: nat, abi: Bytes)
    | StreamEnd(magic: nat)

  datatype File = File(magic: nat, version: nat, rows: seq<Row>)

  datatype ReadError = WrongMagic | UnsupportedVersion | HasState | Truncated | Duplicate | WrongEnd

  datatype ReadResult = Restored(tables: Tables) | Failed(why: ReadError)

  // ---- Index order ----

  lemma {:induction false} LeastExists(s: set<nat>, some: nat)
    requires some in s
    ensures exists k :: k in s && forall j :: j in s ==> k <= j
    decreases some
  {
    if j :| j in s && j < some {
      LeastExists(s, j);
    }
  }

  /** The first key of an index over numbers. */
  function Least(s: set<nat>): (least: nat)
    requires s != {}
    ensures least in s && forall j :: j in s ==> least <= j
  {
    var some :| some in s;
    LeastExists(s, some);
    var k :| k in s && forall j :: j in s ==> k <= j;
    k
  }

  function Accounts(s: set<(Name, nat)>): set<Name> {
    set p | p in s :: p.0
  }

  function BlocksOf(s: set<(Name, nat)>, a: Name): set<nat> {
    set p | p in s && p.0 == a :: p.1
  }

  predicate Earlier(p: (Name, nat), q: (Name, nat)) {
    p.0 < q.0 || (p.0 == q.0 && p.1 <= q.1)
  }

  /** The first key of the history index, which orders by account, then by block. */
  function LeastPair(s: set<(Name, nat)>): (least: (Name, nat))
    requires s != {}
    ensures least in s && forall p :: p in s ==> Earlier(least, p)
  {
    var some :| some in s;
    assert some.0 in Accounts(s);
    var a := Least(Accounts(s));
    assert exists p :: p in s && p.0 == a;
    var one :| one in s && one.0 == a;
    assert one.1 in BlocksOf(s, a);
    var b := Least(BlocksOf(s, a));
    assert (a, b) in s;
    assert forall p :: p in s ==> p.0 in Accounts(s) && (p.0 == a ==> p.1 in BlocksOf(s, a));
    (a, b)
  }

  // ---- Writing ----

  function BlockEntries(blocks: map<nat, BlockId>): seq<Row> {
    if blocks == map[] then []
    else
      var k := Least(blocks.Keys);
      [BlockEntry(k, blocks[k])] + BlockEntries(blocks - {k})
  }

  function AbiEntries(abis: map<Name, Bytes>): seq<Row> {
    if abis == map[] then []
    else
      var a := Least(abis.Keys);
      (if abis[a] != [] then [AbiEntry(a, abis[a])] else []) + AbiEntries(abis - {a})
  }

  function HistoryEntries(history: map<(Name, nat), Bytes>): seq<Row> {
    if history == map[] then []
    else
      var k := LeastPair(history.Keys);
      (if history[k] != [] then [HistoryEntry(k.0, k.1, history[k])] else []) + HistoryEntries(history - {k})
  }

  /** The row stream of a database with a state row, without its end mark. */
  function Entries(t: Tables): seq<Row>
    requires t.state != []
  {
    [StateEntry(t.state[0])] + BlockEntries(t.blocks) + AbiEntries(t.abis) + HistoryEntries(t.history)
  }

  function FileOf(t: Tables): File
    requires t.state != []
  {
    File(MAGIC_NUMBER, CURRENT_VERSION, Entries(t) + [StreamEnd(MAGIC_NUMBER)])
  }

  lemma NothingWritten()
    ensures BlockEntries(map[]) == [] && AbiEntries(map[]) == [] && HistoryEntries(map[]) == []
  {
  }

  lemma NextAbi(abis: map<Name, Bytes>)
    requires abis != map[]
    ensures var a := Least(abis.Keys);
            AbiEntries(abis) == (if abis[a] != [] then [AbiEntry(a, abis[a])] else []) + AbiEntries(abis - {a})
  {
    hide Least;
  }

  lemma NextRevision(history: map<(Name, nat), Bytes>)
    requires history != map[]
    ensures var k := LeastPair(history.Keys);
            HistoryEntries(history)
            == (if history[k] != [] then [HistoryEntry(k.0, k.1, history[k])] else []) + HistoryEntries(history - {k})
  {
    hide LeastPair;
  }

  method WriteBlocks(blocks: map<nat, BlockId>) returns (rows: seq<Row>)
    ensures rows == BlockEntries(blocks)
  {
    rows := [];
    var left := blocks;
    while left != map[]
      invariant rows + BlockEntries(left) == BlockEntries(blocks)
      decreases left.Keys
    {
      var k := Least(left.Keys);
      rows := rows + [BlockEntry(k, left[k])];
      left := left - {k};
    }
  }

  method WriteAbis(abis: map<Name, Bytes>) returns (rows: seq<Row>)
    ensures rows == AbiEntries(abis)
  {
    hide AbiEntries, Least;
    NothingWritten();
    rows := [];
    var left := abis;
    while left != map[]
      invariant rows + AbiEntries(left) == AbiEntries(abis)
      decreases left.Keys
    {
      var a := Least(left.Keys);
      NextAbi(left);
      if |left[a]| > 0 {
        rows := rows + [AbiEntry(a, left[a])];
      }
      left := left - {a};
    }
  }

  method WriteHistory(history: map<(Name, nat), Bytes>) returns (rows: seq<Row>)
    ensures rows == HistoryEntries(history)
  {
    hide HistoryEntries, LeastPair;
    NothingWritten();
    rows := [];
    var left := history;
    while left != map[]
      invariant rows + HistoryEntries(left) == HistoryEntries(history)
      decreases left.Keys
    {
      var k := LeastPair(left.Keys);
      NextRevision(left);
      if |left[k]| > 0 {
        rows := rows + [HistoryEntry(k.0, k.1, left[k])];
      }
      left := left - {k};
    }
  }

  /** Uncommitted revisions are undone before anything is written; a database without a state
      row cannot be written. */
  method WriteSnapshot(db: Db<Tables>) returns (after: Db<Tables>, file: Option<File>)
    ensures after == db.RollbackTo(db.Floor())
    ensures file == if after.current.state == [] then None else Some(FileOf(after.current))
  {
    after := db;
    while after.stack != []
      invariant db.Floor() <= after.revision <= db.revision
      invariant after == db.RollbackTo(after.revision)
      decreases |after.stack|
    {
      UndoAfterRollback(db, after.revision);
      after := after.Undo();
    }
    var t := after.current;
    if t.state == [] {
      return after, None;
    }
    var blocks := WriteBlocks(t.blocks);
    var abis := WriteAbis(t.abis);
    var history := WriteHistory(t.history);
    var rows := [StateEntry(t.state[0])] + blocks + abis + history + [StreamEnd(MAGIC_NUMBER)];
    return after, Some(File(MAGIC_NUMBER, CURRENT_VERSION, rows));
  }

  // ---- Reading ----

  /** What one row does to the tables; none when a unique key is taken. */
  function ReadRow(t: Tables, row: Row): Option<Tables>
    requires !row.StreamEnd?
  {
    match row
    case StateEntry(state) => Some(t.(state := t.state + [state]))
    case BlockEntry(num, id) =>
      if num in t.blocks then None else Some(t.(blocks := t.blocks[num := id]))
    case AbiEntry(a, abi) =>
      if a in t.abis then None else Some(t.(abis := t.abis[a := abi]))
    case HistoryEntry(a, h, abi) =>
      if (a, h) in t.history then None else Some(t.(history := t.history[(a, h) := abi]))
  }

  /** Rows are read until an end mark; a stream that ends before it cannot be unpacked. */
  function ReadRows(t: Tables, rows: seq<Row>): ReadResult
    decreases |rows|
  {
    if rows == [] then Failed(Truncated)
    else if rows[0].StreamEnd? then
      if rows[0].magic == MAGIC_NUMBER then Restored(t) else Failed(WrongEnd)
    else
      var next := ReadRow(t, rows[0]);
      if next.None? then Failed(Duplicate) else ReadRows(next.value, rows[1..])
  }

  function Read(t: Tables, file: File): ReadResult {
    if file.magic != MAGIC_NUMBER then Failed(WrongMagic)
    else if file.version < MIN_VERSION || MAX_VERSION < file.version then Failed(UnsupportedVersion)
    else if t.state != [] then Failed(HasState)
    else ReadRows(t, file.rows)
  }

  method ReadSnapshot(t: Tables, file: File) returns (result: ReadResult)
    ensures result == Read(t, file)
  {
    if file.magic != MAGIC_NUMBER {
      return Failed(WrongMagic);
    }
    if file.version < MIN_VERSION || MAX_VERSION < file.version {
      return Failed(UnsupportedVersion);
    }
    if t.state != [] {
      return Failed(HasState);
    }
    var tables := t;
    var i := 0;
    while true
      invariant 0 <= i <= |file.rows|
      invariant ReadRows(tables, file.rows[i..]) == ReadRows(t, file.rows)
      decreases |file.rows| - i
    {
      if i == |file.rows| {
        return Failed(Truncated);
      }
      var row := file.rows[i];
      assert file.rows[i..][0] == row && file.rows[i..][1..] == file.rows[i + 1..];
      if row.StreamEnd? {
        return if row.magic == MAGIC_NUMBER then Restored(tables) else Failed(WrongEnd);
      }
      var next := ReadRow(tables, row);
      if next.None? {
        return Failed(Duplicate);
      }
      tables := next.value;
      i := i + 1;
    }
  }

  // ---- Round trip ----

  function NonEmpty<K>(m: map<K, Bytes>): map<K, Bytes> {
    map k | k in m && m[k] != [] :: m[k]
  }

  /** What a snapshot preserves of a database: one state row, all received blocks, and every ABI
      and revision that is not empty. */
  function Portable(t: Tables): Tables
    requires t.state != []
  {
    Tables([t.state[0]], t.blocks, NonEmpty(t.abis), NonEmpty(t.history))
  }

  lemma ReadOne(t: Tables, row: Row, rest: seq<Row>)
    requires !row.StreamEnd? && ReadRow(t, row).Some?
    ensures ReadRows(t, [row] + rest) == ReadRows(ReadRow(t, row).value, rest)
  {
    assert ([row] + rest)[1..] == rest;
  }

  lemma {:induction false} ReadBlocks(t: Tables, blocks: map<nat, BlockId>, rest: seq<Row>)
    requires t.blocks.Keys !! blocks.Keys
    ensures ReadRows(t, BlockEntries(blocks) + rest) == ReadRows(t.(blocks := t.blocks + blocks), rest)
    decreases blocks.Keys
  {
    hide ReadRows;
    if blocks == map[] {
      assert BlockEntries(blocks) + rest == rest && t.blocks + blocks == t.blocks;
    } else {
      var k := Least(blocks.Keys);
      var row, left := BlockEntry(k, blocks[k]), blocks - {k};
      var t1 := t.(blocks := t.blocks[k := blocks[k]]);
      assert BlockEntries(blocks) + rest == [row] + (BlockEntries(left) + rest);
      ReadOne(t, row, BlockEntries(left) + rest);
      ReadBlocks(t1, left, rest);
      assert t1.blocks + left == t.blocks + blocks;
    }
  }

  lemma NonEmptyWithout<K>(m: map<K, Bytes>, k: K)
    requires k in m
    ensures m[k] == [] ==> NonEmpty(m - {k}) == NonEmpty(m)
    ensures m[k] != [] ==> NonEmpty(m - {k}) == NonEmpty(m) - {k} && k in NonEmpty(m) && NonEmpty(m)[k] == m[k]
  {
  }

  lemma NonEmptyAdded<K>(known: map<K, Bytes>, m: map<K, Bytes>, k: K)
    requires k in m && m[k] != []
    ensures known[k := m[k]] + NonEmpty(m - {k}) == known + NonEmpty(m)
  {
  }

  lemma {:induction false} ReadAbis(t: Tables, abis: map<Name, Bytes>, rest: seq<Row>)
    requires t.abis.Keys !! abis.Keys
    ensures ReadRows(t, AbiEntries(abis) + rest) == ReadRows(t.(abis := t.abis + NonEmpty(abis)), rest)
    decreases abis.Keys
  {
    hide NonEmpty, ReadRows, AbiEntries, Least;
    if abis == map[] {
      NothingNonEmpty<Name>();
      assert AbiEntries(abis) + rest == rest by { NothingWritten(); }
      assert t.abis + NonEmpty(abis) == t.abis;
    } else {
      var a := Least(abis.Keys);
      var left := abis - {a};
      NextAbi(abis);
      NonEmptyWithout(abis, a);
      if abis[a] == [] {
        assert AbiEntries(abis) == AbiEntries(left);
        ReadAbis(t, left, rest);
      } else {
        var t1 := t.(abis := t.abis[a := abis[a]]);
        assert AbiEntries(abis) + rest == [AbiEntry(a, abis[a])] + (AbiEntries(left) + rest);
        ReadOne(t, AbiEntry(a, abis[a]), AbiEntries(left) + rest);
        ReadAbis(t1, left, rest);
        NonEmptyAdded(t.abis, abis, a);
      }
    }
  }

  lemma NothingNonEmpty<K>()
    ensures NonEmpty<K>(map[]) == map[]
  {
  }

  lemma {:induction false} ReadHistory(t: Tables, history: map<(Name, nat), Bytes>, rest: seq<Row>)
    requires t.history.Keys !! history.Keys
    ensures ReadRows(t, HistoryEntries(history) + rest)
            == ReadRows(t.(history := t.history + NonEmpty(history)), rest)
    decreases history.Keys
  {
    hide NonEmpty, ReadRows, HistoryEntries, LeastPair;
    if history == map[] {
      NothingNonEmpty<(Name, nat)>();
      assert HistoryEntries(history) + rest == rest by { NothingWritten(); }
      assert t.history + NonEmpty(history) == t.history;
    } else {
      var k := LeastPair(history.Keys);
      var left := history - {k};
      NextRevision(history);
      NonEmptyWithout(history, k);
      if history[k] == [] {
        assert HistoryEntries(history) == HistoryEntries(left);
        ReadHistory(t, left, rest);
      } else {
        var t1 := t.(history := t.history[k := history[k]]);
        var row := HistoryEntry(k.0, k.1, history[k]);
        assert HistoryEntries(history) + rest == [row] + (HistoryEntries(left) + rest);
        ReadOne(t, row, HistoryEntries(left) + rest);
        ReadHistory(t1, left, rest);
        NonEmptyAdded(t.history, history, k);
      }
    }
  }

  lemma ReadEntries(t: Tables, rest: seq<Row>)
    requires t.state != []
    ensures ReadRows(EMPTY_TABLES, Entries(t) + rest) == ReadRows(Portable(t), rest)
  {
    hide BlockEntries, AbiEntries, HistoryEntries, ReadRows, NonEmpty;
    var first := StateEntry(t.state[0]);
    var blocks, abis, history := BlockEntries(t.blocks), AbiEntries(t.abis), HistoryEntries(t.history);
    assert Entries(t) + rest == [first] + (blocks + (abis + (history + rest)));
    var t1 := EMPTY_TABLES.(state := [t.state[0]]);
    assert EMPTY_TABLES.state + [t.state[0]] == t1.state;
    assert ReadRows(EMPTY_TABLES, [first] + (blocks + (abis + (history + rest))))
        == ReadRows(t1, blocks + (abis + (history + rest))) by {
      ReadOne(EMPTY_TABLES, first, blocks + (abis + (history + rest)));
    }
    ReadBlocks(t1, t.blocks, abis + (history + rest));
    var t2 := t1.(blocks := t1.blocks + t.blocks);
    ReadAbis(t2, t.abis, history + rest);
    var t3 := t2.(abis := t2.abis + NonEmpty(t.abis));
    ReadHistory(t3, t.history, rest);
    assert t3.(history := t3.history + NonEmpty(t.history)) == Portable(t);
  }

  /** Reading what was written rebuilds everything portable, for every database with a state
      row, whatever follows the end mark; no unique key collides on the way. */
  lemma RoundTrip(t: Tables, tail: seq<Row>)
    requires t.state != []
    ensures Read(EMPTY_TABLES, FileOf(t).(rows := FileOf(t).rows + tail)) == Restored(Portable(t))
  {
    hide Entries, Portable;
    ReadEntries(t, [StreamEnd(MAGIC_NUMBER)] + tail);
    assert Entries(t) + [StreamEnd(MAGIC_NUMBER)] + tail == Entries(t) + ([StreamEnd(MAGIC_NUMBER)] + tail);
  }

  lemma {:induction false} NoEndInside(blocks: map<nat, BlockId>, abis: map<Name, Bytes>,
                                       history: map<(Name, nat), Bytes>)
    ensures forall row :: row in BlockEntries(blocks) + AbiEntries(abis) + HistoryEntries(history) ==> !row.StreamEnd?
    decreases blocks.Keys, abis.Keys, history.Keys
  {
    if blocks != map[] {
      NoEndInside(blocks - {Least(blocks.Keys)}, abis, history);
    } else if abis != map[] {
      NoEndInside(blocks, abis - {Least(abis.Keys)}, history);
    } else if history != map[] {
      NoEndInside(blocks, abis, history - {LeastPair(history.Keys)});
    }
  }

  lemma {:induction false} EndlessFails(t: Tables, rows: seq<Row>)
    requires forall row :: row in rows ==> !row.StreamEnd?
    ensures ReadRows(t, rows).Failed?
    decreases |rows|
  {
    if rows != [] && ReadRow(t, rows[0]).Some? {
      EndlessFails(ReadRow(t, rows[0]).value, rows[1..]);
    }
  }

  /** Every stream cut short is rejected. */
  lemma CutShortFails(t: Tables, target: Tables, n: nat)
    requires t.state != [] && n < |FileOf(t).rows|
    ensures Read(target, FileOf(t).(rows := FileOf(t).rows[..n])).Failed?
  {
    hide BlockEntries, AbiEntries, HistoryEntries;
    NoEndInside(t.blocks, t.abis, t.history);
    var rows := FileOf(t).rows[..n];
    assert rows == Entries(t)[..n];
    forall row | row in rows ensures !row.StreamEnd? {
      assert row in Entries(t);
      assert Entries(t) == [StateEntry(t.state[0])]
                           + (BlockEntries(t.blocks) + AbiEntries(t.abis) + HistoryEntries(t.history));
    }
    EndlessFails(target, rows);
  }

  lemma LeastNonEmpty(m: map<nat, Bytes>)
    requires m != map[] && m[Least(m.Keys)] != []
    ensures NonEmpty(m) != map[] && Least(NonEmpty(m).Keys) == Least(m.Keys)
  {
    hide Least;
    assert Least(m.Keys) in NonEmpty(m);
  }

  lemma LeastPairNonEmpty(m: map<(Name, nat), Bytes>)
    requires m != map[] && m[LeastPair(m.Keys)] != []
    ensures NonEmpty(m) != map[] && LeastPair(NonEmpty(m).Keys) == LeastPair(m.Keys)
  {
    hide LeastPair;
    var k := LeastPair(m.Keys);
    assert k in NonEmpty(m);
    assert Earlier(k, LeastPair(NonEmpty(m).Keys)) && Earlier(LeastPair(NonEmpty(m).Keys), k);
  }

  lemma {:induction false} HistoryEntriesNonEmpty(history: map<(Name, nat), Bytes>)
    ensures HistoryEntries(NonEmpty(history)) == HistoryEntries(history)
    decreases history.Keys
  {
    hide NonEmpty, HistoryEntries, LeastPair;
    if history == map[] {
      NothingNonEmpty<(Name, nat)>();
    } else {
      var k := LeastPair(history.Keys);
      NextRevision(history);
      HistoryEntriesNonEmpty(history - {k});
      NonEmptyWithout(history, k);
      if history[k] != [] {
        LeastPairNonEmpty(history);
        NextRevision(NonEmpty(history));
      }
    }
  }

  lemma {:induction false} AbiEntriesNonEmpty(abis: map<Name, Bytes>)
    ensures AbiEntries(NonEmpty(abis)) == AbiEntries(abis)
    decreases abis.Keys
  {
    hide NonEmpty, AbiEntries, Least;
    if abis == map[] {
      NothingNonEmpty<Name>();
    } else {
      var a := Least(abis.Keys);
      NextAbi(abis);
      AbiEntriesNonEmpty(abis - {a});
      NonEmptyWithout(abis, a);
      if abis[a] != [] {
        LeastNonEmpty(abis);
        NextAbi(NonEmpty(abis));
      }
    }
  }

  /** A restored database is written as the same file again. */
  lemma WriteAgain(t: Tables)
    requires t.state != []
    ensures FileOf(Portable(t)) == FileOf(t)
  {
    hide BlockEntries, AbiEntries, HistoryEntries;
    AbiEntriesNonEmpty(t.abis);
    HistoryEntriesNonEmpty(t.history);
  }

  // ---- What a restored database is good for ----

  /** The snapshot of what a run has committed keeps every latest ABI, and is a database from
      which scanning can start at that height. */
  lemma RestoredStart(valid: Bytes -> bool, w: World)
    requires Inv(valid, w) && Reverted(w).state != []
    ensures Portable(Reverted(w)).(history := Reverted(w).history) == Reverted(w)
    ensures StartOk(valid, Portable(Reverted(w)), w.committed)
    ensures StartLib(Portable(Reverted(w)), w.committed) <= w.lib && w.committed <= w.lib
  {
    hide Inv, Replay, Portable;
    RevertedOk(valid, w);
    PortableStart(valid, Reverted(w), w.committed, w.lib);
  }

  /** What a run has committed is a database from which scanning could start. */
  lemma RevertedOk(valid: Bytes -> bool, w: World)
    requires Inv(valid, w) && Reverted(w).state != []
    ensures StartOk(valid, Reverted(w), w.committed)
    ensures Reverted(w).state[0].irreversible <= w.lib && w.committed <= w.lib
  {
    hide Copies, MemoryOk, Window, Replay, AbisUsable, HistoryUpTo;
    CommittedDb(valid, w);
    var k := w.committed - w.base;
    DbHolds(valid, w.init, w.base, w.chain[..k], w.s.db.RollbackTo(w.s.db.Floor()));
    ReplayOk(valid, w.init, w.base, w.chain[..k]);
    if 0 < k {
      assert w.chain[..k][k - 1] == w.chain[k - 1];
    }
  }

  lemma PortableStart(valid: Bytes -> bool, t: Tables, base: nat, lib: nat)
    requires t.state != [] && StartOk(valid, t, base) && t.state[0].irreversible <= lib
    ensures Portable(t).(history := t.history) == t
    ensures StartOk(valid, Portable(t), base) && StartLib(Portable(t), base) <= lib
  {
    hide Window;
    assert NonEmpty(t.abis) == t.abis;
  }

  /** The newest revision at or before a block that is not empty. */
  function LookUpNonEmpty(history: map<(Name, nat), Bytes>, a: Name, height: nat): Option<Bytes> {
    if (a, height) in history && history[(a, height)] != [] then Some(history[(a, height)])
    else if height == 0 then None
    else LookUpNonEmpty(history, a, height - 1)
  }

  /** A restored history answers a look-up with the newest revision that is not empty; this is
      what the original answered unless the account's ABI had been cleared by then. */
  lemma {:induction false} RestoredLookUp(history: map<(Name, nat), Bytes>, a: Name, height: nat)
    ensures LookUp(NonEmpty(history), a, height) == LookUpNonEmpty(history, a, height)
    ensures LookUp(NonEmpty(history), a, height) == LookUp(history, a, height)
            <==> LookUp(history, a, height) != Some([])
  {
    if 0 < height {
      RestoredLookUp(history, a, height - 1);
    }
    NonEmptyAnswer(history, a, height);
  }

  lemma {:induction false} NonEmptyAnswer(history: map<(Name, nat), Bytes>, a: Name, height: nat)
    ensures LookUpNonEmpty(history, a, height) != Some([])
  {
    if 0 < height {
      NonEmptyAnswer(history, a, height - 1);
    }
  }

  predicate UsableAt(valid: Bytes -> bool, history: map<(Name, nat), Bytes>, a: Name, k: nat) {
    (a, k) in history && history[(a, k)] != [] && valid(history[(a, k)])
  }

  /** An ABI in force survives a snapshot. */
  lemma {:induction false} InForceSurvives(valid: Bytes -> bool, history: map<(Name, nat), Bytes>, a: Name, height: nat)
    requires InForce(valid, history, a, height).Some?
    ensures InForce(valid, NonEmpty(history), a, height) == InForce(valid, history, a, height)
  {
    if !UsableAt(valid, history, a, height) {
      InForceSurvives(valid, history, a, height - 1);
    }
  }

  /** Nothing is in force after a snapshot exactly when no usable revision is on record. */
  lemma {:induction false} NothingSurvives(valid: Bytes -> bool, history: map<(Name, nat), Bytes>, a: Name, height: nat)
    ensures InForce(valid, NonEmpty(history), a, height) == None
            <==> forall k :: 0 <= k <= height ==> !UsableAt(valid, history, a, k)
  {
    if UsableAt(valid, history, a, height) {
      assert (a, height) in NonEmpty(history);
    } else if 0 < height {
      NothingSurvives(valid, history, a, height - 1);
    }
  }

  /** A restored database's latest ABIs are what its history says is in force, as the original's
      were, if and only if every account with a usable revision on record has an ABI still. */
  lemma RestoredDetermined(valid: Bytes -> bool, t: Tables, height: nat)
    requires t.state != [] && AbisUsable(valid, t.abis) && HistoryUpTo(t.history, height)
    requires Determined(valid, t, height)
    ensures Determined(valid, Portable(t), height)
            <==> forall a, k :: UsableAt(valid, t.history, a, k) ==> a in t.abis
  {
    hide InForce;
    assert NonEmpty(t.abis) == t.abis;
    forall a
      ensures Latest(Portable(t), a) == InForce(valid, Portable(t).history, a, height)
              <==> forall k :: UsableAt(valid, t.history, a, k) ==> a in t.abis
    {
      RestoredFor(valid, t.history, Latest(t, a), a, height);
    }
  }

  lemma RestoredFor(valid: Bytes -> bool, history: map<(Name, nat), Bytes>, latest: Option<Bytes>, a: Name, height: nat)
    requires HistoryUpTo(history, height) && latest == InForce(valid, history, a, height)
    ensures latest == InForce(valid, NonEmpty(history), a, height)
            <==> forall k :: UsableAt(valid, history, a, k) ==> latest.Some?
  {
    hide InForce, NonEmpty;
    NothingSurvives(valid, history, a, height);
    if latest.Some? {
      InForceSurvives(valid, history, a, height);
    }
  }

  /** So it is with what any scan from a new database has committed, by blocks with at most one
      row of an account and through forks and restarts. */
  lemma ScanRestored(valid: Bytes -> bool, w0: World, steps: seq<Step>)
    requires Initial(valid, w0) && EnabledRun(valid, w0, steps)
    requires w0.init == EMPTY_TABLES && OneRowSteps(steps) && Reverted(Run(valid, w0, steps)).state != []
    ensures var w := Run(valid, w0, steps);
            var t := Reverted(w);
            Determined(valid, Portable(t), w.committed)
            <==> forall a, k :: UsableAt(valid, t.history, a, k) ==> a in t.abis
  {
    hide Inv, Initial, EnabledRun, Run, Replay, OneRowEach, Portable, UsableAt, Determined, Reverted, Below;
    var w := Run(valid, w0, steps);
    RunFromInitial(valid, w0, steps);
    RunKeepsInit(valid, w0, steps);
    InitialChain(valid, w0);
    RunOneRow(valid, w0, steps);
    CommittedDetermined(valid, w);
    RevertedOk(valid, w);
    RestoredDetermined(valid, Reverted(w), w.committed);
  }

  lemma CommittedDetermined(valid: Bytes -> bool, w: World)
    requires Inv(valid, w) && w.init == EMPTY_TABLES && OneRowChain(w.chain)
    ensures Determined(valid, Reverted(w), w.committed)
  {
    hide Inv, Replay, OneRowEach, Determined, Below, ChainOk;
    CommittedDb(valid, w);
    InvChain(valid, w);
    var kept := w.chain[..w.committed - w.base];
    DbHolds(valid, w.init, w.base, kept, w.s.db.RollbackTo(w.s.db.Floor()));
    EmptyDetermined(valid, w.base);
    LatestFromHistory(valid, w.init, w.base, kept);
  }

  /** An ABI set by block 1 and cleared by block 2: the history says it was cleared, a restored
      one that it is still in force. */
  lemma ClearingForgotten(valid: Bytes -> bool, good: Bytes, a: Name)
    requires good != [] && valid(good)
    ensures var sets := Block(1, 11, None, 0, 0, [AccountRow(true, a, good)], NoFault);
            var clears := Block(2, 12, Some(11), 0, 0, [AccountRow(true, a, [])], NoFault);
            var t := Replay(valid, EMPTY_TABLES, [sets, clears]);
            && t.state != [] && a !in t.abis
            && LookUp(t.history, a, 2) == Some([])
            && LookUp(Portable(t).history, a, 2) == Some(good)
            && Determined(valid, t, 2) && !Determined(valid, Portable(t), 2)
  {
    hide ApplyBlock, InForce, LookUp, NonEmpty;
    var sets := Block(1, 11, None, 0, 0, [AccountRow(true, a, good)], NoFault);
    var clears := Block(2, 12, Some(11), 0, 0, [AccountRow(true, a, [])], NoFault);
    var chain := [sets, clears];
    assert chain[..1] == [sets] && chain[..1][..0] == [];
    assert Replay(valid, EMPTY_TABLES, chain[..1]) == ApplyBlock(valid, EMPTY_TABLES, sets);
    SetsAndClears(valid, sets, clears, good, a);
    EmptyDetermined(valid, 0);
    assert ChainOk(EMPTY_TABLES, 0, chain[..1]);
    LatestFromHistory(valid, EMPTY_TABLES, 0, chain);
    ForgottenRevision(valid, good, a);
    NothingNonEmpty<Name>();
    DeterminedOf(valid, Portable(Replay(valid, EMPTY_TABLES, chain)), 2, a);
  }

  lemma SetsAndClears(valid: Bytes -> bool, sets: Block, clears: Block, good: Bytes, a: Name)
    requires good != [] && valid(good) && sets.num == 1 && clears.num == 2
    requires sets.rows == [AccountRow(true, a, good)] && clears.rows == [AccountRow(true, a, [])]
    ensures var t := ApplyBlock(valid, ApplyBlock(valid, EMPTY_TABLES, sets), clears);
            t.state != [] && t.abis == map[] && t.history == map[(a, 1) := good, (a, 2) := []]
  {
    hide ApplyBlock;
    OneRow(valid, EMPTY_TABLES, sets);
    OneRow(valid, ApplyBlock(valid, EMPTY_TABLES, sets), clears);
  }

  lemma ForgottenRevision(valid: Bytes -> bool, good: Bytes, a: Name)
    requires good != [] && valid(good)
    ensures var history := map[(a, 1) := good, (a, 2) := []];
            && LookUp(history, a, 2) == Some([])
            && LookUp(NonEmpty(history), a, 2) == Some(good)
            && InForce(valid, NonEmpty(history), a, 2) == Some(good)
  {
    var restored := NonEmpty(map[(a, 1) := good, (a, 2) := []]);
    assert (a, 1) in restored && (a, 2) !in restored;
    assert LookUp(restored, a, 1) == Some(good) && InForce(valid, restored, a, 1) == Some(good);
  }

  lemma OneRow(valid: Bytes -> bool, t: Tables, m: Block)
    requires |m.rows| == 1
    ensures var t' := ApplyBlock(valid, t, m);
            t'.abis == ApplyRow(valid, t, m.rows[0], m.num).abis
            && t'.history == ApplyRow(valid, t, m.rows[0], m.num).history
            && t'.state != []
  {
    var added := t.(blocks := AddBlock(t.blocks, m.num, m.id, m.lib));
    assert ApplyRows(valid, added, m.rows[..0], m.num) == added;
    assert ApplyRows(valid, added, m.rows, m.num) == ApplyRow(valid, added, m.rows[0], m.num);
  }

  lemma DeterminedOf(valid: Bytes -> bool, t: Tables, height: nat, a: Name)
    requires Latest(t, a) != InForce(valid, t.history, a, height)
    ensures !Determined(valid, t, height)
  {
  }
}
