/** The search of interactive mode for the ABI of an account at a block: a lower bound in an
    index ordered by account, and by descending block within an account. */
module AbiIndex {
  import opened Options
  import opened Store
  import opened ReceiverSpec
  import opened AbiHistory

  datatype Revision = Revision(account: Name, block: nat, abi: Bytes)

  predicate Precedes(r: Revision, account: Name, block: nat) {
    r.account < account || (r.account == account && r.block > block)
  }

  predicate Sorted(index: seq<Revision>) {
    forall i, j :: 0 <= i < j < |index| ==> Precedes(index[i], index[j].account, index[j].block)
  }

  /** The index holds every revision of the history once, in order. */
  ghost predicate Indexes(index: seq<Revision>, history: map<(Name, nat), Bytes>) {
    && Sorted(index)
    && (forall r :: r in index ==> (r.account, r.block) in history && history[(r.account, r.block)] == r.abi)
    && (forall a, h :: (a, h) in history ==> Revision(a, h, history[(a, h)]) in index)
  }

  predicate IsLowerBound(index: seq<Revision>, account: Name, block: nat, at: nat) {
    && at <= |index|
    && (forall i :: 0 <= i < at ==> Precedes(index[i], account, block))
    && (forall i :: at <= i < |index| ==> !Precedes(index[i], account, block))
  }

  method LowerBound(index: seq<Revision>, account: Name, block: nat) returns (at: nat)
    requires Sorted(index)
    ensures IsLowerBound(index, account, block, at)
  {
    var lo, hi := 0, |index|;
    while lo < hi
      invariant 0 <= lo <= hi <= |index|
      invariant forall i :: 0 <= i < lo ==> Precedes(index[i], account, block)
      invariant forall i :: hi <= i < |index| ==> !Precedes(index[i], account, block)
    {
      var mid := (lo + hi) / 2;
      if Precedes(index[mid], account, block) {
        lo := mid + 1;
      } else {
        hi := mid;
      }
    }
    at := lo;
  }

  // ---- What the search finds ----

  lemma {:induction false} LookUpFinds(history: map<(Name, nat), Bytes>, a: Name, height: nat)
    ensures var found := LookUp(history, a, height);
            && (found.None? ==> forall h :: h <= height ==> (a, h) !in history)
            && (found.Some? ==>
                  exists h :: h <= height && (a, h) in history && history[(a, h)] == found.value
                              && forall k :: h < k <= height ==> (a, k) !in history)
  {
    if (a, height) in history {
      assert height <= height;
    } else if 0 < height {
      LookUpFinds(history, a, height - 1);
    }
  }

  /** The search answers the look-up of the account if it has a revision at or before the block,
      and otherwise falls on a revision of a later account, or the end. */
  lemma SearchRefinesLookUp(index: seq<Revision>, history: map<(Name, nat), Bytes>,
                            a: Name, height: nat, at: nat)
    requires Indexes(index, history) && IsLowerBound(index, a, height, at)
    ensures var found := LookUp(history, a, height);
            if found.Some? then
              at < |index| && index[at].account == a && index[at].block <= height && index[at].abi == found.value
            else
              at == |index| || a < index[at].account
  {
    LookUpFinds(history, a, height);
    var found := LookUp(history, a, height);
    if found.Some? {
      var h :| h <= height && (a, h) in history && history[(a, h)] == found.value
               && forall k :: h < k <= height ==> (a, k) !in history;
      var r := Revision(a, h, found.value);
      assert r in index;
      var i :| 0 <= i < |index| && index[i] == r;
      assert !Precedes(r, a, height);
      assert at <= i && !Precedes(index[at], a, height);
      assert index[at] in index;
    } else if at < |index| {
      assert index[at] in index;
      assert !Precedes(index[at], a, height);
    }
  }

  /** A foreign revision the search falls on is the newest one of its account. */
  lemma ForeignIsNewest(index: seq<Revision>, a: Name, height: nat, at: nat, i: nat)
    requires Sorted(index) && IsLowerBound(index, a, height, at)
    requires at < |index| && a < index[at].account
    requires i < |index| && index[i].account == index[at].account
    ensures index[i].block <= index[at].block
  {
  }

  // ---- What interactive mode does with it ----

  /** The only test is for the end of the index. */
  function ReadyAt(valid: Bytes -> bool, c: Cache, index: seq<Revision>, a: Name, at: nat): (Cache, bool)
    requires at <= |index|
  {
    if a in c.imported then (c, true)
    else if at < |index| then
      (Cache(c.imported + {a}, Register(valid, c.context, a, index[at].abi)), true)
    else (c, false)
  }

  method GetContractAbiReady(valid: Bytes -> bool, c: Cache, index: seq<Revision>, a: Name, height: nat)
    returns (c': Cache, ready: bool)
    requires Sorted(index)
    ensures exists at :: IsLowerBound(index, a, height, at) && (c', ready) == ReadyAt(valid, c, index, a, at)
  {
    var at := LowerBound(index, a, height);
    if a in c.imported {
      return c, true;
    }
    if at < |index| {
      var context := c.context;
      if valid(index[at].abi) && a !in context {
        context := context[a := index[at].abi];
      }
      return Cache(c.imported + {a}, context), true;
    }
    return c, false;
  }

  /** An account that was asked for before is answered from the cache. One asked for afresh is
      decoded with its own newest ABI as of the block exactly when it has one and that one is
      usable; having none, it gets another account's ABI whenever one follows in the index and is
      usable, and is called ready all the same. No other account is touched. */
  lemma InteractiveExact(valid: Bytes -> bool, c: Cache, index: seq<Revision>,
                         history: map<(Name, nat), Bytes>, a: Name, height: nat, at: nat)
    requires Indexes(index, history) && IsLowerBound(index, a, height, at)
    requires c.context.Keys <= c.imported
    ensures var (c', ready) := ReadyAt(valid, c, index, a, at);
            var own := LookUp(history, a, height);
            && (a in c.imported ==> ready && c' == c)
            && (a !in c.imported ==>
                  && (ready <==> at < |index|)
                  && (own.Some? ==> ready)
                  && ((own.Some? && a in c'.context && c'.context[a] == own.value)
                      <==> (own.Some? && valid(own.value)))
                  && (own.None? && a in c'.context ==>
                        ready && a < index[at].account && c'.context[a] == index[at].abi)
                  && (own.None? && ready && valid(index[at].abi) ==> a in c'.context))
            && (ready <==> a in c'.imported) && c'.context.Keys <= c'.imported
            && c'.imported - {a} == c.imported - {a} && c'.context - {a} == c.context - {a}
  {
    SearchRefinesLookUp(index, history, a, height, at);
  }

  /** With account 2's only ABI set at block 5, account 1 has none; asked for at block 10 it is
      called ready and decoded with account 2's. */
  lemma ForeignAbi(valid: Bytes -> bool, good: Bytes)
    requires valid(good)
    ensures var index := [Revision(2, 5, good)];
            var history := map[(2, 5) := good];
            var (c, ready) := ReadyAt(valid, EMPTY_CACHE, index, 1, 0);
            && Indexes(index, history) && IsLowerBound(index, 1, 10, 0)
            && LookUp(history, 1, 10) == None
            && ready && 1 in c.context && c.context[1] == good
  {
    var index := [Revision(2, 5, good)];
    var history := map[(2 as Name, 5 as nat) := good];
    assert Indexes(index, history);
    SearchRefinesLookUp(index, history, 1, 10, 0);
    NoLookUp(history, 1, 10);
  }

  lemma {:induction false} NoLookUp(history: map<(Name, nat), Bytes>, a: Name, height: nat)
    requires forall h :: h <= height ==> (a, h) !in history
    ensures LookUp(history, a, height) == None
  {
    if 0 < height {
      NoLookUp(history, a, height - 1);
    }
  }
}
