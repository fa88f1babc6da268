/** Agreement between the receiver's chain and the blocks of a consumer that truncates on fork
    events, appends completed blocks and acknowledges what it has handled. */
module Consumer {
  import opened Store
  import opened ReceiverSpec
  import opened TableProperties
  import opened Runs
  import opened Invariant

  type View = seq<(nat, BlockId)>

  function ViewOf(chain: seq<Block>): (view: View)
    ensures |view| == |chain|
  {
    if chain == [] then []
    else
      var m := chain[|chain| - 1];
      ViewOf(chain[..|chain| - 1]) + [(m.num, m.id)]
  }

  predicate Contiguous(base: nat, view: View) {
    forall i :: 0 <= i < |view| ==> view[i].0 == base + 1 + i
  }

  /** The consumer never meets a gap while it handles the events. */
  predicate NoGaps(base: nat, view: View, events: seq<Event>)
    decreases |events|
  {
    && Contiguous(base, view)
    && (events != [] ==> NoGaps(base, Handle(view, events[0]), events[1..]))
  }

  predicate ForksAbove(events: seq<Event>, num: nat) {
    forall e :: e in events && e.ForkAt? ==> num < e.num
  }

  /** The consumer holds the chain's first k blocks, and nothing under way will take them. */
  predicate Holds(base: nat, chain: seq<Block>, view: View, events: seq<Event>, k: nat) {
    && k <= |view| && k <= |chain|
    && view[..k] == ViewOf(chain[..k])
    && ForksAbove(events, base + k)
  }

  /** Once the events under way are handled, the consumer has exactly the chain. */
  predicate Agrees(w: World) {
    HandleAll(w.view, w.pending) == ViewOf(w.chain)
  }

  /** An acknowledgement is settled when the consumer has blocks up to num and no unhandled
      fork event at or below it. */
  predicate Settled(w: World, num: nat) {
    num <= w.base + |w.view| && ForksAbove(w.pending, num)
  }

  /** A process that will find nothing to undo announces no fork, so the consumer must not be
      ahead of it. */
  predicate RestartGuard(w: World) {
    w.s.db.stack != [] || Reverted(w).state == [] || |w.view| <= |w.chain|
  }

  predicate Careful(w: World, step: Step) {
    && Enabled(w, step)
    && (step.Start? ==> step.cfg.willAck && RestartGuard(w))
    && (step.Ack? ==> Settled(w, step.num))
  }

  predicate CarefulRun(valid: Bytes -> bool, w: World, steps: seq<Step>)
    decreases |steps|
  {
    steps == [] || (Careful(w, steps[0]) && CarefulRun(valid, Next(valid, w, steps[0]), steps[1..]))
  }

  ghost predicate ConsumerInv(valid: Bytes -> bool, w: World) {
    && Inv(valid, w)
    && NoGaps(w.base, w.view, w.pending)
    && w.base <= w.committed
    && Holds(w.base, w.chain, w.view, w.pending, w.committed - w.base)
    && (!w.s.stopped ==>
          && w.s.cfg.willAck
          && Agrees(w)
          && (w.base <= w.s.acked ==> Holds(w.base, w.chain, w.view, w.pending, w.s.acked - w.base)))
  }

  // ---- Views ----

  lemma {:induction false} ViewPrefix(chain: seq<Block>, k: nat)
    requires k <= |chain|
    ensures ViewOf(chain)[..k] == ViewOf(chain[..k])
  {
    if k == |chain| {
      assert chain[..k] == chain;
    } else {
      ViewPrefix(chain[..|chain| - 1], k);
      assert chain[..|chain| - 1][..k] == chain[..k];
    }
  }

  lemma {:induction false} ViewContiguous(init: Tables, base: nat, chain: seq<Block>)
    requires ChainOk(init, base, chain)
    ensures Contiguous(base, ViewOf(chain))
  {
    if chain != [] {
      ViewContiguous(init, base, chain[..|chain| - 1]);
    }
  }

  lemma {:induction false} TruncateAt(base: nat, view: View, num: nat)
    requires Contiguous(base, view) && base < num
    ensures Truncate(view, num) == if num - 1 - base < |view| then view[..num - 1 - base] else view
  {
    if view != [] && num <= view[|view| - 1].0 {
      var shorter := view[..|view| - 1];
      TruncateAt(base, shorter, num);
      assert view[..num - 1 - base] == shorter[..num - 1 - base];
    }
  }

  lemma {:induction false} HandleAppend(view: View, first: seq<Event>, more: seq<Event>)
    ensures HandleAll(view, first + more) == HandleAll(HandleAll(view, first), more)
    decreases |first|
  {
    if first == [] {
      assert first + more == more;
    } else {
      assert (first + more)[1..] == first[1..] + more;
      HandleAppend(Handle(view, first[0]), first[1..], more);
    }
  }

  lemma {:induction false} NoGapsAppend(base: nat, view: View, first: seq<Event>, more: seq<Event>)
    requires NoGaps(base, view, first) && NoGaps(base, HandleAll(view, first), more)
    ensures NoGaps(base, view, first + more)
    decreases |first|
  {
    if first == [] {
      assert first + more == more;
    } else {
      assert (first + more)[1..] == first[1..] + more;
      NoGapsAppend(base, Handle(view, first[0]), first[1..], more);
    }
  }

  lemma {:induction false} NoGapsEnd(base: nat, view: View, events: seq<Event>)
    requires NoGaps(base, view, events)
    ensures Contiguous(base, HandleAll(view, events))
    decreases |events|
  {
    if events != [] {
      NoGapsEnd(base, Handle(view, events[0]), events[1..]);
    }
  }

  /** Handling an event that forks only above block base + k leaves the first k blocks. */
  lemma HandleKeeps(base: nat, view: View, e: Event, k: nat)
    requires Contiguous(base, view) && k <= |view|
    requires e.ForkAt? ==> base + k < e.num
    ensures k <= |Handle(view, e)| && Handle(view, e)[..k] == view[..k]
  {
    if e.ForkAt? {
      TruncateAt(base, view, e.num);
    }
  }

  lemma {:induction false} HandleAllKeeps(base: nat, view: View, events: seq<Event>, k: nat)
    requires NoGaps(base, view, events) && k <= |view| && ForksAbove(events, base + k)
    ensures k <= |HandleAll(view, events)| && HandleAll(view, events)[..k] == view[..k]
    decreases |events|
  {
    if events != [] {
      HandleKeeps(base, view, events[0], k);
      HandleAllKeeps(base, Handle(view, events[0]), events[1..], k);
    }
  }

  // ---- Acknowledgements ----

  /** An acknowledgement is true of the consumer's blocks, and stays true, exactly when it is
      settled. */
  lemma AckTruthful(valid: Bytes -> bool, w: World, num: nat)
    requires ConsumerInv(valid, w) && !w.s.stopped && w.base <= num
    ensures Settled(w, num) <==> Holds(w.base, w.chain, w.view, w.pending, num - w.base)
  {
    hide Inv;
    if Settled(w, num) {
      var k := num - w.base;
      HandleAllKeeps(w.base, w.view, w.pending, k);
      ViewPrefix(w.chain, k);
    }
  }

  // ---- Steps ----

  lemma DeliverAgrees(valid: Bytes -> bool, w: World)
    requires ConsumerInv(valid, w) && Enabled(w, Deliver)
    ensures ConsumerInv(valid, Next(valid, w, Deliver))
  {
    hide Inv, Holds, ViewOf, Handle;
    StepKeeps(valid, w, Deliver);
    DeliverHolds(w, w.committed - w.base);
    if !w.s.stopped && w.base <= w.s.acked {
      DeliverHolds(w, w.s.acked - w.base);
    }
  }

  lemma DeliverHolds(w: World, k: nat)
    requires w.pending != [] && NoGaps(w.base, w.view, w.pending)
    requires Holds(w.base, w.chain, w.view, w.pending, k)
    ensures Holds(w.base, w.chain, Handle(w.view, w.pending[0]), w.pending[1..], k)
  {
    hide ViewOf;
    HandleKeeps(w.base, w.view, w.pending[0], k);
  }

  lemma HoldsLater(base: nat, chain: seq<Block>, later: seq<Block>, view: View, pending: seq<Event>,
                   events: seq<Event>, k: nat)
    requires Holds(base, chain, view, pending, k)
    requires k <= |later| && later[..k] == chain[..k]
    requires ForksAbove(events, base + k)
    ensures Holds(base, later, view, pending + events, k)
  {
  }

  function ForkEvents(s: State, m: Block): seq<Event> {
    if m.num <= s.head then [ForkAt(m.num, s.head - m.num, Network, m.lib)] else []
  }

  /** What a message publishes, and how far it may let the commit go. */
  lemma ReceiveEvents(valid: Bytes -> bool, w: World, m: Block)
    requires Inv(valid, w) && Enabled(w, Receive(m)) && w.s.cfg.willAck
    ensures var e := ReceiveSpec(valid, w.s, m);
            && e.state.cfg == w.s.cfg
            && e.state.acked <= w.s.acked
            && (e.outcome == Done ==> e.stored && !e.state.stopped)
            && (e.outcome != Done ==> e.state.stopped)
            && (e.stored ==> Committable(e.state) <= e.state.acked < m.num)
    ensures var e := ReceiveSpec(valid, w.s, m);
            if e.outcome == Done then e.events == ForkEvents(w.s, m) + [Completed(m.num, m.id, m.lib)]
            else e.events == [] || e.events == ForkEvents(w.s, m)
    ensures var e := ReceiveSpec(valid, w.s, m);
            && (e.stored ==> !Rejected(e.outcome))
            && (Rejected(e.outcome) ==> Below(w.chain, m.num) == w.chain)
  {
    hide Replay, Copies, StartOk, ChainOk, LibAfter, Below, DbOk, Coherent, Admit, Persist;
    KeptChain(valid, w, m);
    AdmitOk(valid, w, m);
    ReceiveAcked(valid, w.s, m);
    var e := Admit(w.s.(reading := false), m);
    if e.outcome == Done {
      PersistFree(valid, w.init, w.base, Below(w.chain, m.num), e.state, m);
      PersistMemory(valid, e.state, m);
      assert e.events == ForkEvents(w.s, m);
      if Persist(valid, e.state, m).outcome != Done {
        assert e.events + Persist(valid, e.state, m).events == e.events;
      }
    }
  }

  /** A message keeps what the consumer holds below it, whether it succeeds or not. */
  lemma ReceiveHolds(valid: Bytes -> bool, w: World, m: Block, k: nat)
    requires Inv(valid, w) && Enabled(w, Receive(m)) && w.s.cfg.willAck
    requires Holds(w.base, w.chain, w.view, w.pending, k)
    requires k <= m.num - 1 - w.base
    ensures var w' := Next(valid, w, Receive(m));
            Holds(w.base, w'.chain, w.view, w'.pending, k)
  {
    hide Inv, Enabled, ReceiveSpec, Holds, Below;
    KeptChain(valid, w, m);
    ReceiveEvents(valid, w, m);
    var w' := Next(valid, w, Receive(m));
    var e := ReceiveSpec(valid, w.s, m);
    assert w'.chain[..k] == w.chain[..k];
    HoldsLater(w.base, w.chain, w'.chain, w.view, w.pending, e.events, k);
  }

  lemma FollowFork(init: Tables, base: nat, chain: seq<Block>, m: Block, fork: seq<Event>)
    requires ChainOk(init, base, chain) && base < m.num <= base + |chain| + 1
    requires if fork == [] then m.num == base + |chain| + 1
             else |fork| == 1 && fork[0].ForkAt? && fork[0].num == m.num
    ensures HandleAll(ViewOf(chain), fork) == ViewOf(chain[..m.num - 1 - base])
    ensures NoGaps(base, ViewOf(chain), fork)
  {
    hide ViewOf, ChainOk;
    var k := m.num - 1 - base;
    ViewContiguous(init, base, chain);
    ViewPrefix(chain, k);
    if fork == [] {
      assert chain[..k] == chain;
    } else {
      TruncateAt(base, ViewOf(chain), m.num);
      if k == |chain| {
        assert chain[..k] == chain;
      }
      assert fork[1..] == [];
    }
  }

  lemma FollowCompleted(base: nat, kept: seq<Block>, m: Block)
    requires Contiguous(base, ViewOf(kept)) && m.num == base + |kept| + 1
    ensures HandleAll(ViewOf(kept), [Completed(m.num, m.id, m.lib)]) == ViewOf(kept + [m])
    ensures NoGaps(base, ViewOf(kept), [Completed(m.num, m.id, m.lib)])
  {
    assert (kept + [m])[..|kept|] == kept;
    var e := Completed(m.num, m.id, m.lib);
    assert Handle(ViewOf(kept), e) == ViewOf(kept + [m]);
    assert [e][1..] == [];
  }

  /** A consumer that handles the events of a stored message follows the chain. */
  lemma FollowReceive(init: Tables, base: nat, chain: seq<Block>, m: Block, fork: seq<Event>)
    requires ChainOk(init, base, chain) && base < m.num <= base + |chain| + 1
    requires if fork == [] then m.num == base + |chain| + 1
             else |fork| == 1 && fork[0].ForkAt? && fork[0].num == m.num
    ensures var kept := chain[..m.num - 1 - base];
            var done := [Completed(m.num, m.id, m.lib)];
            && HandleAll(ViewOf(chain), fork + done) == ViewOf(kept + [m])
            && NoGaps(base, ViewOf(chain), fork) && NoGaps(base, ViewOf(chain), fork + done)
  {
    hide ViewOf, ChainOk, HandleAll, NoGaps;
    var kept := chain[..m.num - 1 - base];
    var done := [Completed(m.num, m.id, m.lib)];
    FollowFork(init, base, chain, m, fork);
    NoGapsEnd(base, ViewOf(chain), fork);
    FollowCompleted(base, kept, m);
    HandleAppend(ViewOf(chain), fork, done);
    NoGapsAppend(base, ViewOf(chain), fork, done);
  }

  lemma ReceiveFollowed(valid: Bytes -> bool, w: World, m: Block)
    requires ConsumerInv(valid, w) && Enabled(w, Receive(m))
    ensures var w' := Next(valid, w, Receive(m));
            && NoGaps(w.base, w.view, w'.pending)
            && (!w'.s.stopped ==> Agrees(w'))
  {
    hide Replay, Copies, StartOk, LibAfter, DbOk, Coherent, Gated, ChainOk;
    hide ReceiveSpec, Holds, Below, NoGaps, HandleAll, ViewOf;
    KeptChain(valid, w, m);
    ReceiveEvents(valid, w, m);
    var e := ReceiveSpec(valid, w.s, m);
    FollowReceive(w.init, w.base, w.chain, m, ForkEvents(w.s, m));
    if e.events == [] {
      assert w.pending + e.events == w.pending;
    } else {
      HandleAppend(w.view, w.pending, e.events);
      NoGapsAppend(w.base, w.view, w.pending, e.events);
    }
  }

  lemma ReceiveAgrees(valid: Bytes -> bool, w: World, m: Block)
    requires ConsumerInv(valid, w) && Enabled(w, Receive(m))
    ensures ConsumerInv(valid, Next(valid, w, Receive(m)))
  {
    hide Inv, Holds, NoGaps, Agrees, ReceiveSpec, Below;
    assert !w.s.stopped && w.s.cfg.willAck;
    StepKeeps(valid, w, Receive(m));
    ReceiveFollowed(valid, w, m);
    ReceiveEvents(valid, w, m);
    KeptBound(valid, w, m);
    var w' := Next(valid, w, Receive(m));
    ReceiveHolds(valid, w, m, w.committed - w.base);
    if w.base <= w'.s.acked && w'.s.acked < m.num {
      HoldsLess(w.base, w.chain, w.view, w.pending, w.s.acked - w.base, w'.s.acked - w.base);
      ReceiveHolds(valid, w, m, w'.s.acked - w.base);
    }
    if w'.committed != w.committed {
      HoldsLess(w.base, w'.chain, w.view, w'.pending, w'.s.acked - w.base, w'.committed - w.base);
    }
  }

  lemma KeptBound(valid: Bytes -> bool, w: World, m: Block)
    requires Inv(valid, w) && Enabled(w, Receive(m))
    ensures w.committed < m.num
  {
    KeptChain(valid, w, m);
  }

  lemma HoldsLess(base: nat, chain: seq<Block>, view: View, events: seq<Event>, k: nat, less: nat)
    requires Holds(base, chain, view, events, k) && less <= k
    ensures Holds(base, chain, view, events, less)
  {
    ViewPrefix(chain[..k], less);
    assert chain[..k][..less] == chain[..less] && view[..k][..less] == view[..less];
  }

  /** What a new process publishes: at most fork events at the block after the committed one,
      and none exactly when it found a state row and nothing to undo. */
  lemma StartEvents(valid: Bytes -> bool, w: World, cfg: Config)
    requires Inv(valid, w) && Enabled(w, Start(cfg))
    ensures var e := StartSpec(cfg, w.s.db);
            && |e.events| <= 2
            && (forall i :: 0 <= i < |e.events| ==> e.events[i].ForkAt? && e.events[i].num == w.committed + 1)
            && (!e.state.stopped ==> (e.events == [] <==> w.s.db.stack == [] && Reverted(w).state != []))
            && (!e.state.stopped ==> e.state.acked == if cfg.willAck then w.committed else 0)
            && e.state.cfg == cfg
    ensures w.base <= w.committed <= w.base + |w.chain|
    ensures Below(w.chain, w.committed + 1) == w.chain[..w.committed - w.base]
    ensures w.s.db.stack == [] <==> |w.chain| == w.committed - w.base
    ensures w.committed == w.base <== Reverted(w).state == []
  {
    hide Replay, Copies, StartOk, LibAfter, Coherent, Gated, Below, MemoryOk, ChainOk;
    CommittedDb(valid, w);
    StartFinds(valid, w, cfg);
  }

  lemma {:induction false} ForksCut(base: nat, view: View, events: seq<Event>, k: nat)
    requires Contiguous(base, view) && k <= |view|
    requires forall i :: 0 <= i < |events| ==> events[i].ForkAt? && events[i].num == base + k + 1
    ensures HandleAll(view, events) == if events == [] then view else view[..k]
    ensures NoGaps(base, view, events)
    decreases |events|
  {
    if events != [] {
      TruncateAt(base, view, base + k + 1);
      assert Handle(view, events[0]) == view[..k];
      assert view[..k][..k] == view[..k];
      ForksCut(base, view[..k], events[1..], k);
    }
  }

  /** Forks at block base + k + 1 cut a consumer that holds k blocks back to these. */
  lemma CutToHeld(base: nat, chain: seq<Block>, view: View, pending: seq<Event>, events: seq<Event>, k: nat)
    requires Contiguous(base, view) && Holds(base, chain, view, pending, k)
    requires forall i :: 0 <= i < |events| ==> events[i].ForkAt? && events[i].num == base + k + 1
    ensures HandleAll(view, events) == if events == [] then view else ViewOf(chain[..k])
    ensures NoGaps(base, view, events)
    ensures Holds(base, chain[..k], view, events, k)
  {
    hide ViewOf, NoGaps, HandleAll;
    ForksCut(base, view, events, k);
    assert chain[..k][..k] == chain[..k];
  }

  /** A restart brings the consumer into agreement with what the new process resumes from if
      and only if the guard holds: there was something to undo, or no state row at all, or the
      consumer was not ahead. */
  lemma RestartAgreesIff(valid: Bytes -> bool, w: World, cfg: Config)
    requires ConsumerInv(valid, w) && Enabled(w, Start(cfg))
    ensures var w' := Next(valid, w, Start(cfg));
            !w'.s.stopped ==> (Agrees(w') <==> RestartGuard(w))
  {
    hide Inv, ViewOf, NoGaps, Contiguous, HandleAll, StartSpec, Holds, Below;
    StartEvents(valid, w, cfg);
    var w' := Next(valid, w, Start(cfg));
    var k := w.committed - w.base;
    assert Contiguous(w.base, w.view) by { GapFreeNow(w.base, w.view, w.pending); }
    CutToHeld(w.base, w.chain, w.view, w.pending, w'.pending, k);
    assert k <= |w.view| by { HoldsView(w, k); }
    if w'.pending == [] {
      assert HandleAll(w.view, w'.pending) == w.view;
      assert |ViewOf(w.chain[..k])| == k;
      HoldsView(w, k);
      assert w.view[..|w.view|] == w.view;
    }
  }

  /** Undoing the newest n revisions without announcing it, as saving a snapshot does with all
      of them and a process that dies while it starts with some, loses the consumer exactly when
      none is left to announce, there is a state row, and the consumer was ahead of it. */
  lemma RevertedAgreesIff(valid: Bytes -> bool, w: World, n: nat, cfg: Config)
    requires ConsumerInv(valid, w) && Enabled(w, Revert(n)) && Enabled(Next(valid, w, Revert(n)), Start(cfg))
    ensures var again := Next(valid, Next(valid, w, Revert(n)), Start(cfg));
            !again.s.stopped ==>
              (Agrees(again) <==>
                n < |w.s.db.stack| || Reverted(w).state == [] || |w.view| <= w.committed - w.base)
    ensures n == |w.s.db.stack| ==>
              Next(valid, w, Revert(n)).s.db == w.s.db.RollbackTo(w.s.db.Floor())
  {
    hide ConsumerInv, Agrees, StartSpec;
    RevertAgrees(valid, w, n);
    RevertLeaves(valid, w, n);
    RestartAgreesIff(valid, Next(valid, w, Revert(n)), cfg);
  }

  lemma RevertLeaves(valid: Bytes -> bool, w: World, n: nat)
    requires ConsumerInv(valid, w) && Enabled(w, Revert(n))
    ensures var w' := Next(valid, w, Revert(n));
            && w'.s.db == w.s.db.RollbackTo(w.s.db.revision - n)
            && |w'.s.db.stack| == |w.s.db.stack| - n
            && Reverted(w') == Reverted(w)
            && |w'.chain| - |w'.s.db.stack| == w.committed - w.base
  {
    hide Replay, Copies, StartOk, ChainOk, LibAfter, MemoryOk, Holds, NoGaps, Agrees;
    RevertKeeps(valid, w, n);
  }

  lemma HoldsView(w: World, k: nat)
    requires Holds(w.base, w.chain, w.view, w.pending, k)
    ensures k <= |w.view| && k <= |w.chain| && w.view[..k] == ViewOf(w.chain[..k])
  {
  }

  lemma GapFreeNow(base: nat, view: View, events: seq<Event>)
    requires NoGaps(base, view, events)
    ensures Contiguous(base, view)
  {
  }

  lemma StartAgrees(valid: Bytes -> bool, w: World, cfg: Config)
    requires ConsumerInv(valid, w) && Careful(w, Start(cfg))
    ensures ConsumerInv(valid, Next(valid, w, Start(cfg)))
  {
    hide Inv, ViewOf, NoGaps, Contiguous, Holds, Agrees, RestartGuard, StartSpec, Below;
    StepKeeps(valid, w, Start(cfg));
    StartEvents(valid, w, cfg);
    RestartAgreesIff(valid, w, cfg);
    GapFreeNow(w.base, w.view, w.pending);
    CutToHeld(w.base, w.chain, w.view, w.pending, StartSpec(cfg, w.s.db).events, w.committed - w.base);
  }

  lemma AckAgrees(valid: Bytes -> bool, w: World, num: nat)
    requires ConsumerInv(valid, w) && Careful(w, Ack(num))
    ensures ConsumerInv(valid, Next(valid, w, Ack(num)))
  {
    hide Inv, ViewOf, NoGaps, Holds, Settled;
    StepKeeps(valid, w, Ack(num));
    if !w.s.stopped && w.base <= num {
      AckTruthful(valid, w, num);
    }
  }

  lemma PollAgrees(valid: Bytes -> bool, w: World, queueFull: bool)
    requires ConsumerInv(valid, w) && Enabled(w, Poll(queueFull))
    ensures ConsumerInv(valid, Next(valid, w, Poll(queueFull)))
  {
    hide ViewOf, NoGaps, Inv, CommitSpec, Holds, HandleAll;
    StepKeeps(valid, w, Poll(queueFull));
    var w' := Next(valid, w, Poll(queueFull));
    var e := PollSpec(w.s, queueFull);
    if e.events == [] {
      assert w'.pending == w.pending;
      if w'.committed != w.committed {
        assert w'.committed <= w.s.acked;
        HoldsLess(w.base, w.chain, w.view, w.pending, w.s.acked - w.base, w'.committed - w.base);
      }
    } else {
      PauseFollowed(w, w.s.head, w.s.acked);
      HoldsView(w, w.committed - w.base);
      HoldsLater(w.base, w.chain, w.chain, w.view, w.pending, e.events, w.committed - w.base);
      if w.base <= w.s.acked {
        HoldsView(w, w.s.acked - w.base);
        HoldsLater(w.base, w.chain, w.chain, w.view, w.pending, e.events, w.s.acked - w.base);
      }
    }
  }

  lemma PauseFollowed(w: World, head: nat, acked: nat)
    requires NoGaps(w.base, w.view, w.pending)
    ensures NoGaps(w.base, w.view, w.pending + [Paused(head, acked)])
    ensures HandleAll(w.view, w.pending + [Paused(head, acked)]) == HandleAll(w.view, w.pending)
  {
    HandleAppend(w.view, w.pending, [Paused(head, acked)]);
    NoGapsEnd(w.base, w.view, w.pending);
    PauseUnseen(w.base, HandleAll(w.view, w.pending), head, acked);
    NoGapsAppend(w.base, w.view, w.pending, [Paused(head, acked)]);
  }

  lemma PauseUnseen(base: nat, view: View, head: nat, acked: nat)
    requires Contiguous(base, view)
    ensures HandleAll(view, [Paused(head, acked)]) == view
    ensures NoGaps(base, view, [Paused(head, acked)])
  {
    assert [Paused(head, acked)][1..] == [];
  }

  lemma QuietAgrees(valid: Bytes -> bool, w: World, step: Step)
    requires ConsumerInv(valid, w) && Enabled(w, step)
    requires step.NoBlock? || step.Slowdown? || step.AskAbi?
    ensures ConsumerInv(valid, Next(valid, w, step))
  {
    hide Inv, Holds, NoGaps, ViewOf, HandleAll, Register;
    StepKeeps(valid, w, step);
  }

  /** A process that ends with revisions undone publishes nothing, and takes nothing committed. */
  lemma RevertAgrees(valid: Bytes -> bool, w: World, n: nat)
    requires ConsumerInv(valid, w) && Enabled(w, Revert(n))
    ensures ConsumerInv(valid, Next(valid, w, Revert(n)))
  {
    hide Inv, Holds, NoGaps, ViewOf, HandleAll;
    StepKeeps(valid, w, Revert(n));
    var w' := Next(valid, w, Revert(n));
    var k := w.committed - w.base;
    RevertFloor(valid, w, n);
    HoldsView(w, k);
    assert w.pending + [] == w.pending;
    HoldsLater(w.base, w.chain, w'.chain, w.view, w.pending, [], k);
  }

  lemma RevertFloor(valid: Bytes -> bool, w: World, n: nat)
    requires Inv(valid, w) && Enabled(w, Revert(n))
    ensures w.committed - w.base <= |Shorter(w.chain, n)|
  {
    hide Replay, Copies, StartOk, ChainOk, LibAfter, MemoryOk;
  }

  /** A message cut off after its block was stored publishes its fork at most. */
  lemma StoreEvents(valid: Bytes -> bool, w: World, m: Block)
    requires Inv(valid, w) && Enabled(w, DieStoring(m))
    ensures var e := StoreSpec(valid, w.s, m);
            && (e.events == [] || e.events == ForkEvents(w.s, m))
            && (e.stored ==> !Rejected(e.outcome))
  {
    hide Replay, Copies, StartOk, ChainOk, LibAfter, Below, DbOk, Coherent, Gated, LastRow, Admit;
    AdmitOk(valid, w, m);
  }

  lemma DieStoringAgrees(valid: Bytes -> bool, w: World, m: Block)
    requires ConsumerInv(valid, w) && Enabled(w, DieStoring(m))
    ensures ConsumerInv(valid, Next(valid, w, DieStoring(m)))
  {
    hide Inv, Holds, NoGaps, ViewOf, HandleAll, ChainOk, StoreSpec, Below;
    StepKeeps(valid, w, DieStoring(m));
    StoreEvents(valid, w, m);
    KeptChain(valid, w, m);
    KeptBound(valid, w, m);
    var w' := Next(valid, w, DieStoring(m));
    var e := StoreSpec(valid, w.s, m);
    var k := w.committed - w.base;
    HoldsView(w, k);
    assert w'.chain[..k] == w.chain[..k];
    HoldsLater(w.base, w.chain, w'.chain, w.view, w.pending, e.events, k);
    if e.events == [] {
      assert w.pending + e.events == w.pending;
    } else {
      InvChainOk(valid, w);
      FollowFork(w.init, w.base, w.chain, m, ForkEvents(w.s, m));
      NoGapsAppend(w.base, w.view, w.pending, e.events);
    }
  }

  lemma InvChainOk(valid: Bytes -> bool, w: World)
    requires Inv(valid, w)
    ensures ChainOk(w.init, w.base, w.chain)
  {
  }

  lemma CarefulKeeps(valid: Bytes -> bool, w: World, step: Step)
    requires ConsumerInv(valid, w) && Careful(w, step)
    ensures ConsumerInv(valid, Next(valid, w, step))
  {
    hide ConsumerInv, Next, Enabled, Settled, RestartGuard;
    match step
    case Start(cfg) => StartAgrees(valid, w, cfg);
    case Receive(m) => ReceiveAgrees(valid, w, m);
    case Ack(num) => AckAgrees(valid, w, num);
    case Poll(queueFull) => PollAgrees(valid, w, queueFull);
    case Deliver => DeliverAgrees(valid, w);
    case Revert(n) => RevertAgrees(valid, w, n);
    case DieStoring(m) => DieStoringAgrees(valid, w, m);
    case _ => QuietAgrees(valid, w, step);
  }

  lemma {:induction false} CarefulRunKeeps(valid: Bytes -> bool, w: World, steps: seq<Step>)
    requires ConsumerInv(valid, w) && CarefulRun(valid, w, steps)
    ensures ConsumerInv(valid, Run(valid, w, steps))
    decreases |steps|
  {
    hide ConsumerInv, Next, Careful;
    if steps != [] {
      CarefulKeeps(valid, w, steps[0]);
      CarefulRunKeeps(valid, Next(valid, w, steps[0]), steps[1..]);
    }
  }

  lemma InitialAgrees(valid: Bytes -> bool, w: World)
    requires Initial(valid, w)
    ensures ConsumerInv(valid, w)
  {
    InitialInv(valid, w);
  }

  /** Through every careful run of forks, failures and restarts: while a process runs, the
      consumer has exactly the receiver's chain once it has handled what is under way, and at
      any time, even between two processes, it holds every committed block. */
  lemma ConsumerAgreement(valid: Bytes -> bool, w0: World, steps: seq<Step>)
    requires Initial(valid, w0) && CarefulRun(valid, w0, steps)
    ensures var w := Run(valid, w0, steps);
            && (!w.s.stopped ==> HandleAll(w.view, w.pending) == ViewOf(w.chain))
            && (!w.s.stopped && w.pending == [] ==> w.view == ViewOf(w.chain))
            && w.base <= w.committed <= w.base + |w.view|
            && w.view[..w.committed - w.base] == ViewOf(Below(w.chain, w.committed + 1))
  {
    hide ConsumerInv, CarefulRun, Initial, Run, ViewOf, HandleAll, Below;
    InitialAgrees(valid, w0);
    CarefulRunKeeps(valid, w0, steps);
    var w := Run(valid, w0, steps);
    InAgreement(valid, w);
    if w.pending == [] {
      assert HandleAll(w.view, []) == w.view by { NothingToHandle(w.view); }
    }
  }

  lemma NothingToHandle(view: View)
    ensures HandleAll(view, []) == view
  {
  }

  lemma InAgreement(valid: Bytes -> bool, w: World)
    requires ConsumerInv(valid, w)
    ensures !w.s.stopped ==> HandleAll(w.view, w.pending) == ViewOf(w.chain)
    ensures w.base <= w.committed <= w.base + |w.view|
    ensures w.view[..w.committed - w.base] == ViewOf(Below(w.chain, w.committed + 1))
  {
    hide Inv, ViewOf, NoGaps, Below, HandleAll;
    CommittedDb(valid, w);
  }

  /** Two starts in a row lose a consumer: the first undoes unconfirmed blocks the consumer
      already has and announces a fork; if the process dies before that is handled, the second
      finds nothing to undo, announces nothing, and the consumer keeps the stale blocks. */
  lemma TwoStartsLoseConsumer(valid: Bytes -> bool, w: World, cfg: Config)
    requires ConsumerInv(valid, w) && Enabled(w, Start(cfg)) && cfg.willAck
    requires Reverted(w).state != [] && cfg.startBlock == 0 && w.committed < cfg.endBlock
    requires w.committed < w.base + |w.view| && w.s.db.stack != []
    ensures var once := Next(valid, w, Start(cfg));
            var twice := Next(valid, once, Start(cfg));
            && !once.s.stopped && Agrees(once)
            && Enabled(once, Start(cfg))
            && !twice.s.stopped && twice.pending == [] && !Agrees(twice)
            && twice.view == w.view && twice.chain == once.chain
  {
    hide Inv, ViewOf, NoGaps, Holds, Agrees;
    StartEvents(valid, w, cfg);
    RestartAgreesIff(valid, w, cfg);
    StartFinds(valid, w, cfg);
    StartAgrees(valid, w, cfg);
    var once := Next(valid, w, Start(cfg));
    StartEvents(valid, once, cfg);
    RestartAgreesIff(valid, once, cfg);
    StartFinds(valid, once, cfg);
  }
}
