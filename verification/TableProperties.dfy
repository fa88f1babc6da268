/** What every replayed chain guarantees about the tables, block by block. */
module TableProperties {
  import opened Store

  // ---- The window of received blocks ----

  /** With reversible blocks pending, the rows are the blocks [lo, head] with lo the last
      irreversible block or the one after it; otherwise only rows below it may linger. */
  ghost predicate Window(blocks: map<nat, BlockId>, head: nat, lib: nat) {
    if lib < head then
      && (forall k :: k in blocks ==> lib <= k <= head)
      && (forall k :: lib < k <= head ==> k in blocks)
    else
      forall k :: k in blocks ==> k < lib && k <= head
  }

  /** The next block finds its number free and keeps the window, whatever the new irreversible
      block is. */
  lemma WindowStep(blocks: map<nat, BlockId>, head: nat, lib: nat, num: nat, id: BlockId, newLib: nat)
    requires Window(blocks, head, lib) && lib <= newLib && num == head + 1
    ensures newLib < num ==> num !in blocks
    ensures Window(AddBlock(blocks, num, id, newLib), num, newLib)
  {
    if newLib < num {
      var after := AddBlock(blocks, num, id, newLib);
      forall k | newLib < k <= num ensures k in after {
        if k < num {
          assert lib < head && k in blocks;
        }
      }
    }
  }

  // ---- ABI tables ----

  ghost predicate AbisUsable(valid: Bytes -> bool, abis: map<Name, Bytes>) {
    forall a :: a in abis ==> abis[a] != [] && valid(abis[a])
  }

  ghost predicate HistoryUpTo(history: map<(Name, nat), Bytes>, head: nat) {
    forall a, h :: (a, h) in history ==> h <= head
  }

  /** Account rows of block num write only revisions of block num, and only usable ABIs. */
  lemma {:induction false} RowsKeepAbis(valid: Bytes -> bool, t: Tables, rows: seq<AccountRow>, num: nat)
    requires AbisUsable(valid, t.abis)
    ensures var t' := ApplyRows(valid, t, rows, num);
            && AbisUsable(valid, t'.abis)
            && (forall a, h :: h != num ==> ((a, h) in t'.history <==> (a, h) in t.history))
            && (forall a, h :: h != num && (a, h) in t.history ==> t'.history[(a, h)] == t.history[(a, h)])
  {
    if rows != [] {
      RowsKeepAbis(valid, t, rows[..|rows| - 1], num);
    }
  }

  /** The same for the whole block. */
  lemma BlockKeepsAbis(valid: Bytes -> bool, t: Tables, m: Block)
    requires AbisUsable(valid, t.abis)
    ensures var t' := ApplyBlock(valid, t, m);
            && AbisUsable(valid, t'.abis)
            && (forall a, h :: h != m.num ==> ((a, h) in t'.history <==> (a, h) in t.history))
            && (forall a, h :: h != m.num && (a, h) in t.history ==> t'.history[(a, h)] == t.history[(a, h)])
  {
    var added := t.(blocks := AddBlock(t.blocks, m.num, m.id, m.lib));
    RowsKeepAbis(valid, added, m.rows, m.num);
  }

  // ---- Chains ----

  ghost predicate TablesOk(valid: Bytes -> bool, t: Tables, head: nat, lib: nat) {
    Window(t.blocks, head, lib) && AbisUsable(valid, t.abis) && HistoryUpTo(t.history, head)
  }

  /** A scan begins with an empty database before block base + 1, or with a restored one whose
      head is block base. */
  ghost predicate StartOk(valid: Bytes -> bool, start: Tables, base: nat) {
    if start.state == [] then start == EMPTY_TABLES
    else
      && |start.state| == 1
      && start.state[0].head == base
      && 1 <= base
      && TablesOk(valid, start, base, start.state[0].irreversible)
  }

  function StartLib(start: Tables, base: nat): nat {
    if start.state == [] then base else start.state[0].irreversible
  }

  function LibAfter(start: Tables, base: nat, chain: seq<Block>): nat {
    if chain == [] then StartLib(start, base) else chain[|chain| - 1].lib
  }

  /** Blocks follow each other by number from base + 1, and the last irreversible block they
      report never goes back, starting no earlier than base. */
  predicate ChainOk(start: Tables, base: nat, chain: seq<Block>) {
    chain == [] ||
    (var before, m := chain[..|chain| - 1], chain[|chain| - 1];
     && ChainOk(start, base, before)
     && m.num == base + |chain|
     && base <= m.lib && LibAfter(start, base, before) <= m.lib)
  }

  lemma {:induction false} ChainPrefix(start: Tables, base: nat, chain: seq<Block>, k: nat)
    requires ChainOk(start, base, chain) && k <= |chain|
    ensures ChainOk(start, base, chain[..k])
    ensures LibAfter(start, base, chain[..k]) <= LibAfter(start, base, chain)
  {
    if k == |chain| {
      assert chain[..k] == chain;
    } else {
      var before := chain[..|chain| - 1];
      ChainPrefix(start, base, before, k);
      assert before[..k] == chain[..k];
    }
  }

  lemma ChainExtend(start: Tables, base: nat, chain: seq<Block>, m: Block)
    requires ChainOk(start, base, chain)
    requires m.num == base + 1 + |chain| && base <= m.lib && LibAfter(start, base, chain) <= m.lib
    ensures ChainOk(start, base, chain + [m]) && LibAfter(start, base, chain + [m]) == m.lib
  {
    assert (chain + [m])[..|chain|] == chain;
  }

  /** After any chain: the received-block window holds for its head and irreversible block,
      every latest ABI is usable, and no revision lies ahead of the head. */
  lemma {:induction false} ReplayOk(valid: Bytes -> bool, start: Tables, base: nat, chain: seq<Block>)
    requires StartOk(valid, start, base) && ChainOk(start, base, chain)
    ensures TablesOk(valid, Replay(valid, start, chain), base + |chain|, LibAfter(start, base, chain))
  {
    if chain != [] {
      var before, m := chain[..|chain| - 1], chain[|chain| - 1];
      ReplayOk(valid, start, base, before);
      var t := Replay(valid, start, before);
      WindowStep(t.blocks, base + |before|, LibAfter(start, base, before), m.num, m.id, m.lib);
      RowsFrame(valid, t.(blocks := AddBlock(t.blocks, m.num, m.id, m.lib)), m.rows, m.num);
      BlockKeepsAbis(valid, t, m);
    }
  }

  /** The next block of a chain finds its number free in the received blocks. */
  lemma NumberFree(valid: Bytes -> bool, start: Tables, base: nat, chain: seq<Block>, m: Block)
    requires StartOk(valid, start, base) && ChainOk(start, base, chain)
    requires m.num == base + 1 + |chain| && LibAfter(start, base, chain) <= m.lib < m.num
    ensures m.num !in Replay(valid, start, chain).blocks
  {
    ReplayOk(valid, start, base, chain);
    WindowStep(Replay(valid, start, chain).blocks, base + |chain|, LibAfter(start, base, chain), m.num, m.id, m.lib);
  }

  /** Row k, if there is one above base, carries the id of the surviving block of that number. */
  predicate SurvivingId(blocks: map<nat, BlockId>, base: nat, chain: seq<Block>, k: nat) {
    k in blocks && base < k ==> k <= base + |chain| && blocks[k] == chain[k - base - 1].id
  }

  lemma {:induction false} ReplayIds(valid: Bytes -> bool, start: Tables, base: nat, chain: seq<Block>, k: nat)
    requires StartOk(valid, start, base) && ChainOk(start, base, chain)
    ensures SurvivingId(Replay(valid, start, chain).blocks, base, chain, k)
  {
    if chain == [] {
      ReplayOk(valid, start, base, chain);
    } else {
      var before, m := chain[..|chain| - 1], chain[|chain| - 1];
      ReplayIds(valid, start, base, before, k);
      var t := Replay(valid, start, before);
      RowsFrame(valid, t.(blocks := AddBlock(t.blocks, m.num, m.id, m.lib)), m.rows, m.num);
    }
  }

  /** Row k is there before the scan, or block k was reversible when it came. */
  predicate WasAdded(start: Tables, base: nat, chain: seq<Block>, k: nat) {
    || (k <= base && k in start.blocks)
    || (base < k <= base + |chain| && chain[k - base - 1].lib < k)
  }

  /** No reversible block came with an irreversible one beyond row k. */
  predicate NeverCut(chain: seq<Block>, k: nat) {
    forall j :: 0 <= j < |chain| && chain[j].lib < chain[j].num ==> chain[j].lib <= k
  }

  lemma {:induction false} NeverCutAhead(start: Tables, base: nat, chain: seq<Block>, k: nat)
    requires ChainOk(start, base, chain) && LibAfter(start, base, chain) <= k
    ensures NeverCut(chain, k)
  {
    if chain != [] {
      NeverCutAhead(start, base, chain[..|chain| - 1], k);
      NeverCutNext(chain, k);
    }
  }

  lemma NeverCutNext(chain: seq<Block>, k: nat)
    requires chain != []
    ensures var before, m := chain[..|chain| - 1], chain[|chain| - 1];
            NeverCut(chain, k) <==> NeverCut(before, k) && (m.lib < m.num ==> m.lib <= k)
  {
    var before := chain[..|chain| - 1];
    assert forall j :: 0 <= j < |before| ==> before[j] == chain[j];
  }

  /** The received-block rows after every chain, exactly: those added, less those cut off. */
  lemma {:induction false} ReplayRows(valid: Bytes -> bool, start: Tables, base: nat, chain: seq<Block>, k: nat)
    requires StartOk(valid, start, base) && ChainOk(start, base, chain)
    ensures var blocks := Replay(valid, start, chain).blocks;
            && (k in blocks <==> WasAdded(start, base, chain, k) && NeverCut(chain, k))
            && (k in blocks ==> blocks[k] == if k <= base then start.blocks[k] else chain[k - base - 1].id)
  {
    if chain != [] {
      var before, m := chain[..|chain| - 1], chain[|chain| - 1];
      ReplayRows(valid, start, base, before, k);
      var t := Replay(valid, start, before);
      hide NeverCut, StartOk;
      RowsFrame(valid, t.(blocks := AddBlock(t.blocks, m.num, m.id, m.lib)), m.rows, m.num);
      NeverCutNext(chain, k);
      assert base < k <= base + |before| ==> chain[k - base - 1] == before[k - base - 1];
      if k == m.num && m.lib < m.num {
        NeverCutAhead(start, base, chain, k);
      }
    }
  }

  /** The rows numbered lo to hi, in order: what walking the index over that range reads. */
  function RowsBetween(blocks: map<nat, BlockId>, lo: nat, hi: int): seq<(nat, BlockId)>
    decreases hi - lo
  {
    if hi < lo then []
    else
      var lower := RowsBetween(blocks, lo, hi - 1);
      if hi in blocks then lower + [(hi, blocks[hi])] else lower
  }

  /** Numbers without rows add nothing to the walk. */
  lemma {:induction false} RowsSkip(blocks: map<nat, BlockId>, lo: nat, hi: int, far: int)
    requires hi <= far
    requires forall k :: lo <= k && hi < k <= far ==> k !in blocks
    ensures RowsBetween(blocks, lo, far) == RowsBetween(blocks, lo, hi)
    decreases far - hi
  {
    if hi < far && lo <= far {
      RowsSkip(blocks, lo, hi, far - 1);
    }
  }

  /** A range without gaps is read without gaps. */
  lemma {:induction false} RowsContiguous(blocks: map<nat, BlockId>, from: nat, lo: nat, hi: int)
    requires from <= lo <= hi + 1
    requires forall k :: from <= k <= hi ==> (k in blocks <==> lo <= k)
    ensures var rows := RowsBetween(blocks, from, hi);
            && |rows| == hi + 1 - lo
            && forall i :: 0 <= i < |rows| ==> lo + i in blocks && rows[i] == (lo + i, blocks[lo + i])
    decreases hi - from
  {
    if lo <= hi {
      RowsContiguous(blocks, from, lo, hi - 1);
    } else {
      RowsSkip(blocks, from, from - 1, hi);
    }
  }
}
