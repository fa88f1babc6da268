/** The four tables of the receiver's database and what one block does to them. */
module Store {
  import opened Options

  type BlockId = nat
  type Name = nat
  type Bytes = seq<bv8>

  /** Block numbers start at 1. */
  type BlockNum = n: int | 1 <= n witness 1

  datatype StateRow = StateRow(head: nat, headId: BlockId, irreversible: nat, irreversibleId: BlockId)

  /** A row of an account delta. An empty ABI asks to clear the account's ABI. */
  datatype AccountRow = AccountRow(present: bool, name: Name, abi: Bytes)

  /** The part of a block message that cannot be decoded, if any; rows are the account rows
      decoded before the fault. */
  datatype Fault = NoFault | InBlock | InDeltas | InTraces

  datatype Block = Block(
    num: BlockNum, id: BlockId, prev: Option<BlockId>, lib: nat, libId: BlockId,
    rows: seq<AccountRow>, fault: Fault)

  /** The state table holds at most one row in a scanned database, but nothing in its index
      says so. */
  datatype Tables = Tables(
    state: seq<StateRow>,
    blocks: map<nat, BlockId>,
    abis: map<Name, Bytes>,
    history: map<(Name, nat), Bytes>)

  const EMPTY_TABLES := Tables([], map[], map[], map[])

  function RowOf(m: Block): StateRow {
    StateRow(m.num, m.id, m.lib, m.libId)
  }

  function WithState(t: Tables, row: StateRow): Tables {
    t.(state := if |t.state| > 0 then t.state[0 := row] else [row])
  }

  /** Received blocks after block num: rows below lib go once a reversible block is added. */
  function AddBlock(blocks: map<nat, BlockId>, num: nat, id: BlockId, lib: nat): map<nat, BlockId> {
    if num <= lib then blocks
    else var all := blocks[num := id]; map k | k in all && lib <= k :: all[k]
  }

  /** setabi: an unusable ABI leaves the latest one alone, but is recorded all the same. */
  function SaveAbi(valid: Bytes -> bool, t: Tables, name: Name, abi: Bytes, num: nat): Tables {
    t.(abis := if valid(abi) then t.abis[name := abi] else t.abis,
       history := t.history[(name, num) := abi])
  }

  function ClearAbi(t: Tables, name: Name, num: nat): Tables {
    if name in t.abis then t.(abis := t.abis - {name}, history := t.history[(name, num) := []]) else t
  }

  function ApplyRow(valid: Bytes -> bool, t: Tables, row: AccountRow, num: nat): Tables {
    if !row.present then t
    else if row.abi == [] then ClearAbi(t, row.name, num)
    else SaveAbi(valid, t, row.name, row.abi, num)
  }

  function ApplyRows(valid: Bytes -> bool, t: Tables, rows: seq<AccountRow>, num: nat): Tables {
    if rows == [] then t
    else ApplyRow(valid, ApplyRows(valid, t, rows[..|rows| - 1], num), rows[|rows| - 1], num)
  }

  /** Everything block m does to the tables. */
  function ApplyBlock(valid: Bytes -> bool, t: Tables, m: Block): Tables {
    var added := t.(blocks := AddBlock(t.blocks, m.num, m.id, m.lib));
    WithState(ApplyRows(valid, added, m.rows, m.num), RowOf(m))
  }

  /** The reference: the tables after a chain of blocks, with no forks and no restarts. */
  function Replay(valid: Bytes -> bool, start: Tables, chain: seq<Block>): Tables {
    if chain == [] then start
    else ApplyBlock(valid, Replay(valid, start, chain[..|chain| - 1]), chain[|chain| - 1])
  }

  lemma ReplayAppend(valid: Bytes -> bool, start: Tables, chain: seq<Block>, m: Block)
    ensures Replay(valid, start, chain + [m]) == ApplyBlock(valid, Replay(valid, start, chain), m)
  {
    assert (chain + [m])[..|chain|] == chain;
  }

  /** Account rows touch neither the state table nor the received blocks. */
  lemma {:induction false} RowsFrame(valid: Bytes -> bool, t: Tables, rows: seq<AccountRow>, num: nat)
    ensures var t' := ApplyRows(valid, t, rows, num);
            t'.state == t.state && t'.blocks == t.blocks
  {
    if rows != [] {
      RowsFrame(valid, t, rows[..|rows| - 1], num);
    }
  }

  /** The state table of a replayed chain is the last block's row alone. */
  lemma {:induction false} ReplayState(valid: Bytes -> bool, start: Tables, chain: seq<Block>)
    requires |start.state| <= 1
    ensures Replay(valid, start, chain).state ==
            if chain == [] then start.state else [RowOf(chain[|chain| - 1])]
  {
    if chain != [] {
      var before, m := chain[..|chain| - 1], chain[|chain| - 1];
      ReplayState(valid, start, before);
      var t := Replay(valid, start, before);
      RowsFrame(valid, t.(blocks := AddBlock(t.blocks, m.num, m.id, m.lib)), m.rows, m.num);
    }
  }
}
