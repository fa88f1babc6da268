/** The history of ABI revisions: what a look-up of the past answers, and how the history
    determines the table of latest ABIs. */
module AbiHistory {
  import opened Options
  import opened Store
  import opened TableProperties

  /** The newest revision of an account at or before block height, usable or not. */
  function LookUp(history: map<(Name, nat), Bytes>, a: Name, height: nat): Option<Bytes> {
    if (a, height) in history then Some(history[(a, height)])
    else if height == 0 then None
    else LookUp(history, a, height - 1)
  }

  /** The ABI in force: revisions from the newest back, unusable ones passed over. */
  function InForce(valid: Bytes -> bool, history: map<(Name, nat), Bytes>, a: Name, height: nat): Option<Bytes> {
    if (a, height) in history && history[(a, height)] == [] then None
    else if (a, height) in history && valid(history[(a, height)]) then Some(history[(a, height)])
    else if height == 0 then None
    else InForce(valid, history, a, height - 1)
  }

  function Latest(t: Tables, a: Name): Option<Bytes> {
    if a in t.abis then Some(t.abis[a]) else None
  }

  /** Recording a revision at the newest block of a history, whether it is the account's first
      there or overwrites one: from that block on the account's look-ups answer with it, and no
      other look-up changes. */
  lemma {:induction false} RecordAnswers(history: map<(Name, nat), Bytes>, name: Name, num: nat, abi: Bytes,
                                         a: Name, height: nat)
    requires HistoryUpTo(history, num)
    ensures LookUp(history[(name, num) := abi], a, height)
            == if a == name && num <= height then Some(abi) else LookUp(history, a, height)
  {
    if 0 < height {
      RecordAnswers(history, name, num, abi, a, height - 1);
    }
  }

  // ---- Time travel ----

  /** Histories that agree up to a height answer alike up to it. */
  lemma {:induction false} LookUpAgrees(before: map<(Name, nat), Bytes>, after: map<(Name, nat), Bytes>,
                                        a: Name, height: nat)
    requires forall h :: h <= height ==> ((a, h) in before <==> (a, h) in after)
    requires forall h :: h <= height && (a, h) in before ==> before[(a, h)] == after[(a, h)]
    ensures LookUp(after, a, height) == LookUp(before, a, height)
  {
    assert (a, height) in before <==> (a, height) in after;
    if (a, height) !in before && 0 < height {
      LookUpAgrees(before, after, a, height - 1);
    }
  }

  /** Whatever blocks follow, a look-up at a past height on the current chain answers as it did
      just after the block of that height. */
  lemma {:induction false} TimeTravel(valid: Bytes -> bool, start: Tables, base: nat, chain: seq<Block>,
                                      a: Name, height: nat)
    requires StartOk(valid, start, base) && ChainOk(start, base, chain)
    requires base <= height <= base + |chain|
    ensures LookUp(Replay(valid, start, chain).history, a, height)
            == LookUp(Replay(valid, start, chain[..height - base]).history, a, height)
  {
    if height == base + |chain| {
      assert chain[..height - base] == chain;
    } else {
      var before, m := chain[..|chain| - 1], chain[|chain| - 1];
      TimeTravel(valid, start, base, before, a, height);
      assert before[..height - base] == chain[..height - base];
      ReplayOk(valid, start, base, before);
      var t := Replay(valid, start, before);
      BlockKeepsAbis(valid, t, m);
      LookUpAgrees(t.history, ApplyBlock(valid, t, m).history, a, height);
    }
  }

  // ---- One account's rows in one block ----

  /** What the rows of one block make of one account: its latest ABI, and the revision recorded
      for the block, if any. */
  datatype Account = Account(latest: Option<Bytes>, recorded: Option<Bytes>)

  function AccountRowStep(valid: Bytes -> bool, c: Account, row: AccountRow, a: Name): Account {
    if !row.present || row.name != a then c
    else if row.abi == [] then if c.latest == None then c else Account(None, Some([]))
    else Account(if valid(row.abi) then Some(row.abi) else c.latest, Some(row.abi))
  }

  function AccountRows(valid: Bytes -> bool, latest: Option<Bytes>, rows: seq<AccountRow>, a: Name): Account {
    if rows == [] then Account(latest, None)
    else AccountRowStep(valid, AccountRows(valid, latest, rows[..|rows| - 1], a), rows[|rows| - 1], a)
  }

  function Recorded(history: map<(Name, nat), Bytes>, a: Name, height: nat): Option<Bytes> {
    if (a, height) in history then Some(history[(a, height)]) else None
  }

  /** The tables as a whole do to each account what its own rows do. */
  lemma {:induction false} RowsByAccount(valid: Bytes -> bool, t: Tables, rows: seq<AccountRow>, num: nat, a: Name)
    requires (a, num) !in t.history
    ensures var t' := ApplyRows(valid, t, rows, num);
            Account(Latest(t', a), Recorded(t'.history, a, num)) == AccountRows(valid, Latest(t, a), rows, a)
  {
    if rows != [] {
      RowsByAccount(valid, t, rows[..|rows| - 1], num, a);
    }
  }

  /** A recorded revision that is empty or usable tells the latest ABI. */
  lemma {:induction false} RecordedTells(valid: Bytes -> bool, latest: Option<Bytes>, rows: seq<AccountRow>, a: Name)
    ensures var c := AccountRows(valid, latest, rows, a);
            && (c.recorded == None ==> c.latest == latest)
            && (c.recorded == Some([]) ==> c.latest == None)
            && (c.recorded.Some? && c.recorded.value != [] && valid(c.recorded.value) ==> c.latest == c.recorded)
  {
    if rows != [] {
      RecordedTells(valid, latest, rows[..|rows| - 1], a);
    }
  }

  // ---- The latest table and the history ----

  /** Every account's latest ABI is the one its history says is in force. */
  ghost predicate Determined(valid: Bytes -> bool, t: Tables, height: nat) {
    forall a :: Latest(t, a) == InForce(valid, t.history, a, height)
  }

  lemma DeterminedFor(valid: Bytes -> bool, t: Tables, height: nat, a: Name)
    requires Determined(valid, t, height)
    ensures Latest(t, a) == InForce(valid, t.history, a, height)
  {
  }

  predicate OfAccount(row: AccountRow, a: Name) {
    row.present && row.name == a
  }

  predicate Unusable(valid: Bytes -> bool, row: AccountRow) {
    row.abi != [] && !valid(row.abi)
  }

  /** The ABI a row leaves behind that clears or sets one. */
  function Leaves(row: AccountRow): Option<Bytes> {
    if row.abi == [] then None else Some(row.abi)
  }

  /** Row i clears or sets the account's ABI, and no later row of the account does: those are
      unusable, or clear once more what row i cleared. */
  predicate Carries(valid: Bytes -> bool, rows: seq<AccountRow>, a: Name, i: int) {
    && 0 <= i < |rows| && OfAccount(rows[i], a) && !Unusable(valid, rows[i])
    && forall k :: i < k < |rows| && OfAccount(rows[k], a) ==>
         Unusable(valid, rows[k]) || (rows[k].abi == [] && rows[i].abi == [])
  }

  /** A block parts an account's latest ABI, as it was before, from its history by two rows: the
      one that carries the latest ABI away from what it was, and a later unusable one. */
  ghost predicate Parts(valid: Bytes -> bool, latest: Option<Bytes>, rows: seq<AccountRow>, a: Name) {
    exists i, j :: 0 <= i < j < |rows| && Carries(valid, rows, a, i) && Leaves(rows[i]) != latest
                   && OfAccount(rows[j], a) && Unusable(valid, rows[j])
  }

  /** No account is parted by the block's rows. */
  ghost predicate Unambiguous(valid: Bytes -> bool, t: Tables, m: Block) {
    forall a :: !Parts(valid, Latest(t, a), m.rows, a)
  }

  /** An unusable revision is recorded over a latest ABI that the block itself has changed. */
  predicate Overlaid(valid: Bytes -> bool, latest: Option<Bytes>, c: Account) {
    c.recorded.Some? && c.recorded.value != [] && !valid(c.recorded.value) && c.latest != latest
  }

  /** The row that carries is the one whose ABI the account ends with. */
  lemma {:induction false} CarriedIsLatest(valid: Bytes -> bool, latest: Option<Bytes>, rows: seq<AccountRow>,
                                           a: Name, i: int)
    requires Carries(valid, rows, a, i)
    ensures AccountRows(valid, latest, rows, a).latest == Leaves(rows[i])
  {
    if i < |rows| - 1 {
      CarriedIsLatest(valid, latest, rows[..|rows| - 1], a, i);
    }
  }

  /** An account whose ABI changed ends with that of some row. */
  lemma {:induction false} LatestIsCarried(valid: Bytes -> bool, latest: Option<Bytes>, rows: seq<AccountRow>, a: Name)
    requires AccountRows(valid, latest, rows, a).latest != latest
    ensures exists i :: Carries(valid, rows, a, i)
  {
    var before, last := rows[..|rows| - 1], rows[|rows| - 1];
    if OfAccount(last, a) && !Unusable(valid, last) {
      assert Carries(valid, rows, a, |rows| - 1);
    } else {
      LatestIsCarried(valid, latest, before, a);
      var i :| Carries(valid, before, a, i);
      assert Carries(valid, rows, a, i);
    }
  }

  /** An overlaid account whose last row is not an unusable one was overlaid before it, and that
      row at most clears what is cleared already. */
  lemma OverlaidEarlier(valid: Bytes -> bool, latest: Option<Bytes>, rows: seq<AccountRow>, a: Name)
    requires Overlaid(valid, latest, AccountRows(valid, latest, rows, a)) && rows != []
    requires !(OfAccount(rows[|rows| - 1], a) && Unusable(valid, rows[|rows| - 1]))
    ensures Overlaid(valid, latest, AccountRows(valid, latest, rows[..|rows| - 1], a))
    ensures OfAccount(rows[|rows| - 1], a) ==>
              rows[|rows| - 1].abi == [] && AccountRows(valid, latest, rows[..|rows| - 1], a).latest == None
  {
  }

  lemma CarriesOn(valid: Bytes -> bool, rows: seq<AccountRow>, a: Name, i: int)
    requires rows != [] && Carries(valid, rows[..|rows| - 1], a, i)
    requires var last := rows[|rows| - 1];
             OfAccount(last, a) ==> Unusable(valid, last) || (last.abi == [] && rows[i].abi == [])
    ensures Carries(valid, rows, a, i)
  {
  }

  /** An overlaid account has a carrying row and a later unusable one. */
  lemma {:induction false} OverlaidParts(valid: Bytes -> bool, latest: Option<Bytes>, rows: seq<AccountRow>, a: Name)
    requires Overlaid(valid, latest, AccountRows(valid, latest, rows, a))
    ensures Parts(valid, latest, rows, a)
  {
    assert rows != [];
    var before, last := rows[..|rows| - 1], rows[|rows| - 1];
    if OfAccount(last, a) && Unusable(valid, last) {
      LatestIsCarried(valid, latest, before, a);
      var i :| Carries(valid, before, a, i);
      CarriedIsLatest(valid, latest, before, a, i);
      assert Carries(valid, rows, a, i) && i < |rows| - 1 && rows[|rows| - 1] == last;
    } else {
      hide AccountRows, Overlaid, Carries;
      OverlaidEarlier(valid, latest, rows, a);
      OverlaidParts(valid, latest, before, a);
      var i, j :| 0 <= i < j < |before| && Carries(valid, before, a, i) && Leaves(before[i]) != latest
                  && OfAccount(before[j], a) && Unusable(valid, before[j]);
      CarriedIsLatest(valid, latest, before, a, i);
      assert rows[i] == before[i] && rows[j] == before[j];
      CarriesOn(valid, rows, a, i);
    }
  }

  /** A carrying row and a later unusable one overlay the account. */
  lemma {:induction false} PartsOverlays(valid: Bytes -> bool, latest: Option<Bytes>, rows: seq<AccountRow>,
                                         a: Name, i: int, j: int)
    requires 0 <= i < j < |rows| && Carries(valid, rows, a, i) && Leaves(rows[i]) != latest
    requires OfAccount(rows[j], a) && Unusable(valid, rows[j])
    ensures Overlaid(valid, latest, AccountRows(valid, latest, rows, a))
  {
    CarriedIsLatest(valid, latest, rows, a, i);
    if j < |rows| - 1 {
      var before := rows[..|rows| - 1];
      assert Carries(valid, before, a, i);
      CarriedIsLatest(valid, latest, before, a, i);
      PartsOverlays(valid, latest, before, a, i, j);
    }
  }

  lemma OverlaidIffParts(valid: Bytes -> bool, latest: Option<Bytes>, rows: seq<AccountRow>, a: Name)
    ensures Overlaid(valid, latest, AccountRows(valid, latest, rows, a)) <==> Parts(valid, latest, rows, a)
  {
    hide AccountRows, Carries;
    if Overlaid(valid, latest, AccountRows(valid, latest, rows, a)) {
      OverlaidParts(valid, latest, rows, a);
    } else if Parts(valid, latest, rows, a) {
      var i, j :| 0 <= i < j < |rows| && Carries(valid, rows, a, i) && Leaves(rows[i]) != latest
                  && OfAccount(rows[j], a) && Unusable(valid, rows[j]);
      PartsOverlays(valid, latest, rows, a, i, j);
      assert false;
    }
  }

  lemma {:induction false} InForceAgrees(valid: Bytes -> bool, before: map<(Name, nat), Bytes>,
                                         after: map<(Name, nat), Bytes>, a: Name, height: nat)
    requires forall h :: h <= height ==> ((a, h) in before <==> (a, h) in after)
    requires forall h :: h <= height && (a, h) in before ==> before[(a, h)] == after[(a, h)]
    ensures InForce(valid, after, a, height) == InForce(valid, before, a, height)
  {
    assert (a, height) in before <==> (a, height) in after;
    if 0 < height {
      InForceAgrees(valid, before, after, a, height - 1);
    }
  }

  /** After one more block, an account's latest ABI is still the one in force if and only if
      its rows in that block do not part them. */
  lemma AccountDetermined(valid: Bytes -> bool, t: Tables, m: Block, height: nat, a: Name)
    requires AbisUsable(valid, t.abis) && HistoryUpTo(t.history, height) && m.num == height + 1
    requires Latest(t, a) == InForce(valid, t.history, a, height)
    ensures var t' := ApplyBlock(valid, t, m);
            Latest(t', a) == InForce(valid, t'.history, a, m.num) <==> !Parts(valid, Latest(t, a), m.rows, a)
  {
    hide Parts;
    var added := t.(blocks := AddBlock(t.blocks, m.num, m.id, m.lib));
    var t' := ApplyBlock(valid, t, m);
    RowsByAccount(valid, added, m.rows, m.num, a);
    RecordedTells(valid, Latest(t, a), m.rows, a);
    OverlaidIffParts(valid, Latest(t, a), m.rows, a);
    BlockKeepsAbis(valid, t, m);
    InForceAgrees(valid, t.history, t'.history, a, height);
  }

  /** A block keeps the latest table determined by the history exactly when its rows part no
      account. */
  lemma BlockDetermined(valid: Bytes -> bool, t: Tables, m: Block, height: nat)
    requires AbisUsable(valid, t.abis) && HistoryUpTo(t.history, height) && m.num == height + 1
    requires Determined(valid, t, height)
    ensures Determined(valid, ApplyBlock(valid, t, m), m.num) <==> Unambiguous(valid, t, m)
  {
    hide Parts;
    forall a
      ensures Latest(ApplyBlock(valid, t, m), a) == InForce(valid, ApplyBlock(valid, t, m).history, a, m.num)
              <==> !Parts(valid, Latest(t, a), m.rows, a)
    {
      AccountDetermined(valid, t, m, height, a);
    }
  }

  /** The block after the first k, applied to the replay of those. */
  ghost predicate UnambiguousAt(valid: Bytes -> bool, start: Tables, chain: seq<Block>, k: nat)
    requires k < |chain|
  {
    Unambiguous(valid, Replay(valid, start, chain[..k]), chain[k])
  }

  ghost predicate DeterminedAt(valid: Bytes -> bool, start: Tables, base: nat, chain: seq<Block>, k: nat)
    requires k <= |chain|
  {
    Determined(valid, Replay(valid, start, chain[..k]), base + k)
  }

  lemma ReplayNext(valid: Bytes -> bool, start: Tables, chain: seq<Block>, k: nat)
    requires k < |chain|
    ensures Replay(valid, start, chain[..k + 1]) == ApplyBlock(valid, Replay(valid, start, chain[..k]), chain[k])
  {
    assert chain[..k + 1][..k] == chain[..k];
  }

  lemma NextDetermined(valid: Bytes -> bool, start: Tables, base: nat, chain: seq<Block>, k: nat)
    requires StartOk(valid, start, base) && ChainOk(start, base, chain) && k < |chain|
    requires DeterminedAt(valid, start, base, chain, k)
    ensures DeterminedAt(valid, start, base, chain, k + 1) <==> UnambiguousAt(valid, start, chain, k)
  {
    hide Replay, Determined, Unambiguous, ApplyBlock, Window, AbisUsable, HistoryUpTo, StartOk;
    ChainPrefix(start, base, chain, k);
    ChainPrefix(start, base, chain, k + 1);
    assert chain[k].num == base + k + 1 by {
      assert chain[..k + 1][k] == chain[k];
    }
    ReplayNext(valid, start, chain, k);
    ReplayOk(valid, start, base, chain[..k]);
    BlockDetermined(valid, Replay(valid, start, chain[..k]), chain[k], base + k);
  }

  /** Along any chain from a determined start: the latest table is what the history says after
      every block if and only if no block parts an account. */
  lemma {:induction false} ChainDeterminedIff(valid: Bytes -> bool, start: Tables, base: nat, chain: seq<Block>, n: nat)
    requires StartOk(valid, start, base) && ChainOk(start, base, chain) && n <= |chain|
    requires Determined(valid, start, base)
    ensures (forall k :: 0 <= k <= n ==> DeterminedAt(valid, start, base, chain, k))
            <==> (forall k :: 0 <= k < n ==> UnambiguousAt(valid, start, chain, k))
  {
    hide Replay, Determined, Unambiguous, UnambiguousAt, ChainOk, StartOk;
    if n == 0 {
      assert DeterminedAt(valid, start, base, chain, 0) by { NoBlocks(valid, start, base, chain); }
    } else {
      ChainDeterminedIff(valid, start, base, chain, n - 1);
      if forall k :: 0 <= k <= n - 1 ==> DeterminedAt(valid, start, base, chain, k) {
        NextDetermined(valid, start, base, chain, n - 1);
      }
    }
  }

  lemma NoBlocks(valid: Bytes -> bool, start: Tables, base: nat, chain: seq<Block>)
    requires Determined(valid, start, base)
    ensures DeterminedAt(valid, start, base, chain, 0)
  {
    hide Determined;
    assert Replay(valid, start, chain[..0]) == start;
  }

  /** No account has two rows in a block. */
  predicate OneRowEach(rows: seq<AccountRow>) {
    forall i, j :: 0 <= i < j < |rows| && rows[i].present && rows[j].present ==> rows[i].name != rows[j].name
  }

  /** In a scan whose blocks carry at most one row of an account, the history determines the
      latest table after every chain. */
  lemma {:induction false} LatestFromHistory(valid: Bytes -> bool, start: Tables, base: nat, chain: seq<Block>)
    requires StartOk(valid, start, base) && ChainOk(start, base, chain)
    requires Determined(valid, start, base)
    requires forall i :: 0 <= i < |chain| ==> OneRowEach(chain[i].rows)
    ensures Determined(valid, Replay(valid, start, chain), base + |chain|)
  {
    if chain != [] {
      var before, m := chain[..|chain| - 1], chain[|chain| - 1];
      LatestFromHistory(valid, start, base, before);
      ReplayOk(valid, start, base, before);
      var t := Replay(valid, start, before);
      assert OneRowEach(m.rows);
      BlockDetermined(valid, t, m, base + |before|);
    }
  }

  lemma {:induction false} NothingInForce(valid: Bytes -> bool, a: Name, height: nat)
    ensures InForce(valid, map[], a, height) == None
  {
    if 0 < height {
      NothingInForce(valid, a, height - 1);
    }
  }

  /** A new database starts determined. */
  lemma EmptyDetermined(valid: Bytes -> bool, height: nat)
    ensures Determined(valid, EMPTY_TABLES, height)
  {
    forall a ensures Latest(EMPTY_TABLES, a) == InForce(valid, EMPTY_TABLES.history, a, height) {
      NothingInForce(valid, a, height);
    }
  }

  lemma {:induction false} UsableInForce(valid: Bytes -> bool, history: map<(Name, nat), Bytes>, a: Name, height: nat)
    requires var found := LookUp(history, a, height);
             found.Some? && found.value != [] && valid(found.value)
    ensures InForce(valid, history, a, height) == LookUp(history, a, height)
  {
    if (a, height) !in history {
      UsableInForce(valid, history, a, height - 1);
    }
  }

  /** Asked today about a past block of a scan from scratch, the history gives the ABI that was
      the account's latest as of that block, if the newest revision then was usable. */
  lemma PastAbi(valid: Bytes -> bool, base: nat, chain: seq<Block>, a: Name, height: nat)
    requires ChainOk(EMPTY_TABLES, base, chain) && base <= height <= base + |chain|
    requires forall i :: 0 <= i < |chain| ==> OneRowEach(chain[i].rows)
    requires var found := LookUp(Replay(valid, EMPTY_TABLES, chain).history, a, height);
             found.Some? && found.value != [] && valid(found.value)
    ensures Latest(Replay(valid, EMPTY_TABLES, chain[..height - base]), a)
            == LookUp(Replay(valid, EMPTY_TABLES, chain).history, a, height)
  {
    hide Replay, LookUp, InForce, ChainOk, Determined, OneRowEach;
    var past := chain[..height - base];
    TimeTravel(valid, EMPTY_TABLES, base, chain, a, height);
    ChainPrefix(EMPTY_TABLES, base, chain, height - base);
    EmptyDetermined(valid, base);
    LatestFromHistory(valid, EMPTY_TABLES, base, past);
    UsableInForce(valid, Replay(valid, EMPTY_TABLES, past).history, a, height);
    DeterminedFor(valid, Replay(valid, EMPTY_TABLES, past), height, a);
  }

  /** Two rows of one account in a block can part the table from the history: a usable ABI
      followed by an unusable one leaves the first in the table and only the second on record. */
  lemma TwoRowsPart(valid: Bytes -> bool, good: Bytes, bad: Bytes, a: Name)
    requires good != [] && valid(good) && bad != [] && !valid(bad)
    ensures var m := Block(1, 11, None, 0, 0, [AccountRow(true, a, good), AccountRow(true, a, bad)], NoFault);
            var t := ApplyBlock(valid, EMPTY_TABLES, m);
            && Determined(valid, EMPTY_TABLES, 0)
            && Latest(t, a) == Some(good)
            && InForce(valid, t.history, a, 1) == None
  {
    var rows := [AccountRow(true, a, good), AccountRow(true, a, bad)];
    var m := Block(1, 11, None, 0, 0, rows, NoFault);
    var t := ApplyBlock(valid, EMPTY_TABLES, m);
    EmptyDetermined(valid, 0);
    assert rows[..1] == [AccountRow(true, a, good)] && rows[..1][..0] == [];
    var added := EMPTY_TABLES.(blocks := AddBlock(map[], 1, 11, 0));
    assert ApplyRows(valid, added, rows[..1], 1) == ApplyRow(valid, added, rows[0], 1);
    assert ApplyRows(valid, added, rows, 1) == ApplyRow(valid, ApplyRow(valid, added, rows[0], 1), rows[1], 1);
    assert InForce(valid, t.history, a, 0) == None;
  }
}
