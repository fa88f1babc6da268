/** What a snapshot file looks like, and which files are read to what: the writer and the reader
    against the format, apart from each other. */
module SnapshotFormat {
  import opened Store
  import opened Snapshot

  // ---- Order ----

  function Rank(row: Row): nat {
    match row
    case StateEntry(_) => 0
    case BlockEntry(_, _) => 1
    case AbiEntry(_, _) => 2
    case HistoryEntry(_, _, _) => 3
    case StreamEnd(_) => 4
  }

  /** State row, received blocks by number, latest ABIs by account, history by account and
      block. */
  predicate Precedes(first: Row, second: Row) {
    || Rank(first) < Rank(second)
    || (first.BlockEntry? && second.BlockEntry? && first.num < second.num)
    || (first.AbiEntry? && second.AbiEntry? && first.account < second.account)
    || (first.HistoryEntry? && second.HistoryEntry?
        && (first.account < second.account || (first.account == second.account && first.block < second.block)))
  }

  predicate InOrder(rows: seq<Row>) {
    forall i, j :: 0 <= i < j < |rows| ==> Precedes(rows[i], rows[j])
  }

  lemma OrderedAppend(first: seq<Row>, more: seq<Row>)
    requires InOrder(first) && InOrder(more)
    requires forall r, s :: r in first && s in more ==> Precedes(r, s)
    ensures InOrder(first + more)
  {
    hide Precedes;
    var all := first + more;
    forall i, j | 0 <= i < j < |all| ensures Precedes(all[i], all[j]) {
      assert i < |first| ==> all[i] in first;
      assert |first| <= j ==> all[j] in more;
    }
  }

  lemma {:induction false} BlocksOrdered(blocks: map<nat, BlockId>)
    ensures InOrder(BlockEntries(blocks))
    ensures forall row :: row in BlockEntries(blocks) ==> row.BlockEntry? && row.num in blocks
    decreases blocks.Keys
  {
    hide InOrder, Least;
    if blocks == map[] {
      assert InOrder([]) by { NothingOrdered(); }
    } else {
      var k := Least(blocks.Keys);
      BlocksOrdered(blocks - {k});
      assert InOrder([BlockEntry(k, blocks[k])]) by { OneOrdered(BlockEntry(k, blocks[k])); }
      OrderedAppend([BlockEntry(k, blocks[k])], BlockEntries(blocks - {k}));
    }
  }

  lemma NothingOrdered()
    ensures InOrder([])
  {
  }

  lemma OneOrdered(row: Row)
    ensures InOrder([row])
  {
  }

  lemma {:induction false} AbisOrdered(abis: map<Name, Bytes>)
    ensures InOrder(AbiEntries(abis))
    ensures forall row :: row in AbiEntries(abis) ==> row.AbiEntry? && row.account in abis
    decreases abis.Keys
  {
    hide InOrder, Least, AbiEntries;
    NothingOrdered();
    NothingWritten();
    if abis != map[] {
      var a := Least(abis.Keys);
      NextAbi(abis);
      AbisOrdered(abis - {a});
      var first := if abis[a] != [] then [AbiEntry(a, abis[a])] else [];
      assert InOrder(first) by { OneOrdered(AbiEntry(a, abis[a])); }
      OrderedAppend(first, AbiEntries(abis - {a}));
    }
  }

  lemma {:induction false} HistoryOrdered(history: map<(Name, nat), Bytes>)
    ensures InOrder(HistoryEntries(history))
    ensures forall row :: row in HistoryEntries(history) ==> row.HistoryEntry? && (row.account, row.block) in history
    decreases history.Keys
  {
    hide InOrder, LeastPair, HistoryEntries;
    NothingOrdered();
    NothingWritten();
    if history != map[] {
      var k := LeastPair(history.Keys);
      NextRevision(history);
      HistoryOrdered(history - {k});
      var first := if history[k] != [] then [HistoryEntry(k.0, k.1, history[k])] else [];
      assert InOrder(first) by { OneOrdered(HistoryEntry(k.0, k.1, history[k])); }
      OrderedAppend(first, HistoryEntries(history - {k}));
    }
  }

  /** A written stream is in order, its end mark last, and no key is written twice. */
  lemma WrittenInOrder(t: Tables)
    requires t.state != []
    ensures InOrder(FileOf(t).rows)
    ensures var last := FileOf(t).rows[|FileOf(t).rows| - 1];
            FileOf(t).magic == MAGIC_NUMBER && last == StreamEnd(MAGIC_NUMBER)
  {
    hide InOrder, BlockEntries, AbiEntries, HistoryEntries;
    var state := [StateEntry(t.state[0])];
    OneOrdered(state[0]);
    OneOrdered(StreamEnd(MAGIC_NUMBER));
    BlocksOrdered(t.blocks);
    AbisOrdered(t.abis);
    HistoryOrdered(t.history);
    OrderedAppend(state, BlockEntries(t.blocks));
    OrderedAppend(state + BlockEntries(t.blocks), AbiEntries(t.abis));
    OrderedAppend(state + BlockEntries(t.blocks) + AbiEntries(t.abis), HistoryEntries(t.history));
    OrderedAppend(Entries(t), [StreamEnd(MAGIC_NUMBER)]);
  }

  // ---- Reading ----

  predicate SameKey(r: Row, s: Row) {
    || (r.BlockEntry? && s.BlockEntry? && r.num == s.num)
    || (r.AbiEntry? && s.AbiEntry? && r.account == s.account)
    || (r.HistoryEntry? && s.HistoryEntry? && r.account == s.account && r.block == s.block)
  }

  predicate Taken(t: Tables, row: Row) {
    || (row.BlockEntry? && row.num in t.blocks)
    || (row.AbiEntry? && row.account in t.abis)
    || (row.HistoryEntry? && (row.account, row.block) in t.history)
  }

  /** No row has a key the database or an earlier row has. */
  predicate Fresh(t: Tables, rows: seq<Row>) {
    && (forall i :: 0 <= i < |rows| ==> !Taken(t, rows[i]))
    && (forall i, j :: 0 <= i < j < |rows| ==> !SameKey(rows[i], rows[j]))
  }

  function StatesOf(rows: seq<Row>): seq<StateRow> {
    if rows == [] then []
    else (if rows[0].StateEntry? then [rows[0].row] else []) + StatesOf(rows[1..])
  }

  ghost predicate BlocksHold(t: Tables, rows: seq<Row>, after: Tables) {
    forall num: nat, id: BlockId :: num in after.blocks && after.blocks[num] == id
      <==> (num in t.blocks && t.blocks[num] == id) || BlockEntry(num, id) in rows
  }

  ghost predicate AbisHold(t: Tables, rows: seq<Row>, after: Tables) {
    forall a: Name, abi: Bytes :: a in after.abis && after.abis[a] == abi
      <==> (a in t.abis && t.abis[a] == abi) || AbiEntry(a, abi) in rows
  }

  ghost predicate HistoryHolds(t: Tables, rows: seq<Row>, after: Tables) {
    forall a: Name, h: nat, abi: Bytes :: (a, h) in after.history && after.history[(a, h)] == abi
      <==> ((a, h) in t.history && t.history[(a, h)] == abi) || HistoryEntry(a, h, abi) in rows
  }

  /** The tables hold what they held before and what the rows say, and nothing else. */
  ghost predicate Holds(t: Tables, rows: seq<Row>, after: Tables) {
    && after.state == t.state + StatesOf(rows)
    && BlocksHold(t, rows, after) && AbisHold(t, rows, after) && HistoryHolds(t, rows, after)
  }

  /** The position of the first end mark, or the end of the rows. */
  function EndAt(rows: seq<Row>): (n: nat)
    ensures n <= |rows|
    ensures forall i :: 0 <= i < n ==> !rows[i].StreamEnd?
    ensures n < |rows| ==> rows[n].StreamEnd?
  {
    if rows == [] || rows[0].StreamEnd? then 0 else 1 + EndAt(rows[1..])
  }

  lemma RowTaken(t: Tables, row: Row)
    requires !row.StreamEnd?
    ensures ReadRow(t, row).None? <==> Taken(t, row)
  {
  }

  /** A first row that finds its key free makes it taken for the others. */
  lemma FreshStep(t: Tables, row: Row, rest: seq<Row>)
    requires !row.StreamEnd? && ReadRow(t, row).Some?
    ensures Fresh(t, [row] + rest) <==> Fresh(ReadRow(t, row).value, rest)
  {
    hide ReadRow, Taken, SameKey;
    var t1 := ReadRow(t, row).value;
    var rows := [row] + rest;
    assert forall other :: Taken(t1, other) <==> Taken(t, other) || SameKey(row, other) by {
      forall other ensures Taken(t1, other) <==> Taken(t, other) || SameKey(row, other) {
        TakenStep(t, row, other);
      }
    }
    RowTaken(t, row);
    assert rows[0] == row;
    if Fresh(t, rows) {
      forall i | 0 <= i < |rest| ensures !Taken(t1, rest[i]) {
        assert rest[i] == rows[i + 1];
      }
      forall i, j | 0 <= i < j < |rest| ensures !SameKey(rest[i], rest[j]) {
        assert rest[i] == rows[i + 1] && rest[j] == rows[j + 1];
      }
    }
    if Fresh(t1, rest) {
      forall i | 0 <= i < |rows| ensures !Taken(t, rows[i]) {
        assert 0 < i ==> rows[i] == rest[i - 1];
      }
      forall i, j | 0 <= i < j < |rows| ensures !SameKey(rows[i], rows[j]) {
        assert rows[j] == rest[j - 1] && (0 < i ==> rows[i] == rest[i - 1]);
      }
    }
  }

  lemma TakenStep(t: Tables, row: Row, other: Row)
    requires !row.StreamEnd? && ReadRow(t, row).Some?
    ensures Taken(ReadRow(t, row).value, other) <==> Taken(t, other) || SameKey(row, other)
  {
  }

  lemma InFront(row: Row, rest: seq<Row>, other: Row)
    ensures other in [row] + rest <==> other == row || other in rest
  {
  }

  lemma BlocksStep(t: Tables, row: Row, rest: seq<Row>, after: Tables)
    requires !row.StreamEnd? && ReadRow(t, row).Some? && BlocksHold(ReadRow(t, row).value, rest, after)
    ensures BlocksHold(t, [row] + rest, after)
  {
    var t1 := ReadRow(t, row).value;
    forall num: nat, id: BlockId
      ensures num in after.blocks && after.blocks[num] == id
              <==> (num in t.blocks && t.blocks[num] == id) || BlockEntry(num, id) in [row] + rest
    {
      InFront(row, rest, BlockEntry(num, id));
      assert (num in t1.blocks && t1.blocks[num] == id)
             <==> (num in t.blocks && t.blocks[num] == id) || row == BlockEntry(num, id);
    }
  }

  lemma AbisStep(t: Tables, row: Row, rest: seq<Row>, after: Tables)
    requires !row.StreamEnd? && ReadRow(t, row).Some? && AbisHold(ReadRow(t, row).value, rest, after)
    ensures AbisHold(t, [row] + rest, after)
  {
    var t1 := ReadRow(t, row).value;
    forall a: Name, abi: Bytes
      ensures a in after.abis && after.abis[a] == abi
              <==> (a in t.abis && t.abis[a] == abi) || AbiEntry(a, abi) in [row] + rest
    {
      InFront(row, rest, AbiEntry(a, abi));
      assert (a in t1.abis && t1.abis[a] == abi)
             <==> (a in t.abis && t.abis[a] == abi) || row == AbiEntry(a, abi);
    }
  }

  lemma HistoryStep(t: Tables, row: Row, rest: seq<Row>, after: Tables)
    requires !row.StreamEnd? && ReadRow(t, row).Some? && HistoryHolds(ReadRow(t, row).value, rest, after)
    ensures HistoryHolds(t, [row] + rest, after)
  {
    var t1 := ReadRow(t, row).value;
    forall a: Name, h: nat, abi: Bytes
      ensures (a, h) in after.history && after.history[(a, h)] == abi
              <==> ((a, h) in t.history && t.history[(a, h)] == abi) || HistoryEntry(a, h, abi) in [row] + rest
    {
      InFront(row, rest, HistoryEntry(a, h, abi));
      assert ((a, h) in t1.history && t1.history[(a, h)] == abi)
             <==> ((a, h) in t.history && t.history[(a, h)] == abi) || row == HistoryEntry(a, h, abi);
    }
  }

  lemma HoldsStep(t: Tables, row: Row, rest: seq<Row>, after: Tables)
    requires !row.StreamEnd? && ReadRow(t, row).Some? && Holds(ReadRow(t, row).value, rest, after)
    ensures Holds(t, [row] + rest, after)
  {
    hide BlocksHold, AbisHold, HistoryHolds;
    BlocksStep(t, row, rest, after);
    AbisStep(t, row, rest, after);
    HistoryStep(t, row, rest, after);
    assert ([row] + rest)[1..] == rest;
  }

  /** Every stream of rows, read into any database: a key that is taken, a missing or a wrong end
      mark fail, in this order of precedence, and otherwise the rows up to the mark are added. */
  lemma {:induction false} RowsRead(t: Tables, rows: seq<Row>)
    ensures var n := EndAt(rows);
            var result := ReadRows(t, rows);
            && (!Fresh(t, rows[..n]) ==> result == Failed(Duplicate))
            && (Fresh(t, rows[..n]) && n == |rows| ==> result == Failed(Truncated))
            && (Fresh(t, rows[..n]) && n < |rows| && rows[n] != StreamEnd(MAGIC_NUMBER) ==>
                  result == Failed(WrongEnd))
            && (Fresh(t, rows[..n]) && n < |rows| && rows[n] == StreamEnd(MAGIC_NUMBER) ==>
                  result.Restored? && Holds(t, rows[..n], result.tables))
    decreases |rows|
  {
    hide Fresh, Holds, ReadRow;
    var n := EndAt(rows);
    if n == 0 {
      assert rows[..n] == [];
      NothingRead(t);
    } else {
      var row, rest := rows[0], rows[1..];
      assert rows[..n] == [row] + rest[..n - 1];
      if ReadRow(t, row).Some? {
        RowsRead(ReadRow(t, row).value, rest);
        FreshStep(t, row, rest[..n - 1]);
        if ReadRows(t, rows).Restored? {
          HoldsStep(t, row, rest[..n - 1], ReadRows(t, rows).tables);
        }
      } else {
        RowTaken(t, row);
        NotFresh(t, row, rest[..n - 1]);
      }
    }
  }

  lemma NothingRead(t: Tables)
    ensures Fresh(t, []) && Holds(t, [], t)
  {
  }

  lemma NotFresh(t: Tables, row: Row, rest: seq<Row>)
    requires Taken(t, row)
    ensures !Fresh(t, [row] + rest)
  {
    assert ([row] + rest)[0] == row;
  }

  /** Every file, read into any database: what is accepted, what it then holds, and what is
      refused for which reason. */
  lemma ReadExact(t: Tables, file: File)
    ensures var n := EndAt(file.rows);
            var result := Read(t, file);
            && (result.Restored? <==>
                  && file.magic == MAGIC_NUMBER && file.version == CURRENT_VERSION && t.state == []
                  && Fresh(t, file.rows[..n]) && n < |file.rows| && file.rows[n] == StreamEnd(MAGIC_NUMBER))
            && (result.Restored? ==> Holds(t, file.rows[..n], result.tables))
            && (file.magic != MAGIC_NUMBER ==> result == Failed(WrongMagic))
            && (file.magic == MAGIC_NUMBER && file.version != CURRENT_VERSION ==>
                  result == Failed(UnsupportedVersion))
            && (file.magic == MAGIC_NUMBER && file.version == CURRENT_VERSION && t.state != [] ==>
                  result == Failed(HasState))
            && (result == Failed(Duplicate) ==> !Fresh(t, file.rows[..n]))
            && (result == Failed(Truncated) ==> n == |file.rows|)
  {
    hide Fresh, Holds, ReadRows;
    RowsRead(t, file.rows);
  }
}
