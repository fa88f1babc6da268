/** Interactive mode: block ranges asked for by a consumer, requested from the node one at a
    time by a receiver that pauses, and may stop, when it is asked to slow down. */
module Interactive {
  import opened Options
  import opened Uint32

  datatype Request = Request(first: nat, end: nat)

  /** The receiver's part, `head` and `irreversible` being those of the last block received;
      then what an observer sees: requests accepted and sent, blocks still to come from the
      node, and blocks that came. */
  datatype Scheduler = Scheduler(
    ready: bool, reading: bool, stopped: bool, slowdown: bool,
    head: nat, irreversible: nat,
    queue: seq<Request>, pending: bool, endBlock: nat,
    accepted: seq<Request>, sent: seq<Request>, coming: seq<nat>, arrived: seq<nat>)

  function Range(r: Request): seq<nat>
    decreases r.end - r.first
  {
    if r.end <= r.first then [] else [r.first] + Range(Request(r.first + 1, r.end))
  }

  function Ranges(rs: seq<Request>): seq<nat> {
    if rs == [] then [] else Ranges(rs[..|rs| - 1]) + Range(rs[|rs| - 1])
  }

  /** The next request goes out when none is outstanding; the node answers it with its blocks
      in order. */
  function Process(s: Scheduler): Scheduler {
    if s.ready && !s.pending && s.queue != [] then
      var r := s.queue[0];
      s.(queue := s.queue[1..], endBlock := r.end, pending := true,
         sent := s.sent + [r], coming := s.coming + Range(r))
    else s
  }

  /** Requests that reach beyond the head of the scanned database, or find it empty, are
      refused. */
  function OnRequest(s: Scheduler, r: Request, scanned: Option<nat>): Scheduler {
    if scanned.None? || scanned.value < r.first || scanned.value < r.end then s
    else Process(s.(queue := s.queue + [r], accepted := s.accepted + [r]))
  }

  function OnBlock(s: Scheduler, lib: nat): Scheduler
    requires s.coming != []
  {
    var num := s.coming[0];
    var s1 := s.(coming := s.coming[1..], arrived := s.arrived + [num], reading := false);
    Finish(s1, num).(head := num, irreversible := lib)
  }

  /** The last block of the range lets the next request out, before it is itself dealt with. */
  function Finish(s: Scheduler, num: nat): Scheduler {
    if num == Sub32(s.endBlock, 1) then Process(s.(pending := false)) else s
  }

  /** The test for the last block before the end is made in this mode too, against the end of
      the request sent last, whenever a pause is due. */
  predicate AtEnd(s: Scheduler) {
    s.head == Sub32(s.endBlock, 1) && s.irreversible >= s.head
  }

  predicate MustPause(s: Scheduler, queueFull: bool) {
    s.slowdown || queueFull
  }

  function OnPoll(s: Scheduler, queueFull: bool): Scheduler {
    if !MustPause(s, queueFull) then s.(reading := true)
    else if AtEnd(s) then s.(stopped := true)
    else s
  }

  datatype Step =
    | Ask(r: Request, scanned: Option<nat>)  // with the head of the scanned database, if any
    | Ready
    | Poll(queueFull: bool)
    | Block(lib: nat)
    | Slowdown(pause: bool)

  /** The exporter hands on only ranges with at least one block, and the irreversible block the
      node reports does not go back. */
  predicate Enabled(s: Scheduler, step: Step) {
    match step
    case Ask(r, _) => !s.stopped && r.first < r.end
    case Ready => !s.stopped && !s.ready
    case Poll(_) => !s.stopped && s.ready && !s.reading
    case Block(lib) => !s.stopped && s.ready && s.reading && s.coming != [] && s.irreversible <= lib
    case Slowdown(_) => true
  }

  function Next(s: Scheduler, step: Step): Scheduler
    requires Enabled(s, step)
  {
    match step
    case Ask(r, scanned) => OnRequest(s, r, scanned)
    case Ready => Process(s.(ready := true))
    case Poll(queueFull) => OnPoll(s, queueFull)
    case Block(lib) => OnBlock(s, lib)
    case Slowdown(pause) => s.(slowdown := pause)
  }

  predicate EnabledRun(s: Scheduler, steps: seq<Step>)
    decreases |steps|
  {
    steps == [] || (Enabled(s, steps[0]) && EnabledRun(Next(s, steps[0]), steps[1..]))
  }

  function Run(s: Scheduler, steps: seq<Step>): Scheduler
    requires EnabledRun(s, steps)
    decreases |steps|
  {
    if steps == [] then s else Run(Next(s, steps[0]), steps[1..])
  }

  /** A new process; the end block is an option until a request sets it. */
  function Begun(endBlock: nat): Scheduler {
    Scheduler(false, false, false, false, 0, 0, [], false, endBlock, [], [], [], [])
  }

  // ---- Order ----

  predicate AllProper(rs: seq<Request>) {
    forall i :: 0 <= i < |rs| ==> rs[i].first < rs[i].end
  }

  /** What is still to come is the rest of one range, up to the end block, exactly while a
      request is outstanding. */
  predicate RestOfRange(s: Scheduler) {
    if s.pending then
      && s.sent != [] && s.endBlock == s.sent[|s.sent| - 1].end
      && s.coming != [] && s.sent[|s.sent| - 1].first <= s.endBlock - |s.coming|
      && s.coming == Range(Request(s.endBlock - |s.coming|, s.endBlock))
    else s.coming == []
  }

  ghost predicate Orderly(s: Scheduler) {
    && AllProper(s.accepted)
    && s.sent + s.queue == s.accepted
    && RestOfRange(s)
    && s.arrived + s.coming == Ranges(s.sent)
    && (s.ready && !s.pending ==> s.queue == [])
    && (!s.ready ==> !s.pending && !s.reading && !s.stopped)
  }

  lemma {:induction false} RangeSize(r: Request)
    ensures |Range(r)| == if r.end <= r.first then 0 else r.end - r.first
    decreases r.end - r.first
  {
    if r.first < r.end {
      RangeSize(Request(r.first + 1, r.end));
    }
  }

  lemma RangesAppend(rs: seq<Request>, r: Request)
    ensures Ranges(rs + [r]) == Ranges(rs) + Range(r)
  {
    assert (rs + [r])[..|rs|] == rs;
  }

  lemma {:induction false} RangesSplit(first: seq<Request>, more: seq<Request>)
    ensures Ranges(first + more) == Ranges(first) + Ranges(more)
    decreases |more|
  {
    if more == [] {
      assert first + more == first;
    } else {
      assert (first + more)[..|first + more| - 1] == first + more[..|more| - 1];
      RangesSplit(first, more[..|more| - 1]);
    }
  }

  /** Letting the next request out keeps the order, given that nothing else is to come. */
  lemma ProcessOrderly(s: Scheduler)
    requires AllProper(s.accepted) && s.sent + s.queue == s.accepted && RestOfRange(s)
    requires s.arrived + s.coming == Ranges(s.sent)
    requires !s.ready ==> !s.pending && !s.reading && !s.stopped
    ensures Orderly(Process(s))
  {
    hide Ranges, Range;
    if s.ready && !s.pending && s.queue != [] {
      var r := s.queue[0];
      assert r == s.accepted[|s.sent|];
      RangesAppend(s.sent, r);
      RangeSize(r);
      assert s.sent + [r] + s.queue[1..] == s.accepted;
      assert s.coming + Range(r) == Range(r);
      assert r == Request(r.end - |Range(r)|, r.end);
      assert s.arrived + [] == s.arrived;
    }
  }

  /** What is to come continues by number up to the end block, so the last one is told by it. */
  lemma NextToCome(s: Scheduler)
    requires Orderly(s) && s.coming != []
    ensures s.pending && 0 < s.endBlock
    ensures s.coming[0] == s.endBlock - |s.coming|
    ensures s.coming[1..] == Range(Request(s.coming[0] + 1, s.endBlock))
    ensures s.coming[0] == Sub32(s.endBlock, 1) <==> |s.coming| == 1
  {
    hide Ranges;
  }

  lemma BlockOrderly(s: Scheduler, lib: nat)
    requires Orderly(s) && s.ready && s.coming != []
    ensures Orderly(OnBlock(s, lib))
  {
    hide Ranges, Process;
    var s1 := s.(coming := s.coming[1..], arrived := s.arrived + [s.coming[0]], reading := false);
    NextToCome(s);
    RangeSize(Request(s.coming[0] + 1, s.endBlock));
    assert s1.arrived + s1.coming == s.arrived + s.coming;
    if |s.coming| == 1 {
      ProcessOrderly(s1.(pending := false));
    }
  }

  lemma AskOrderly(s: Scheduler, r: Request, scanned: Option<nat>)
    requires Orderly(s) && Enabled(s, Ask(r, scanned))
    ensures Orderly(OnRequest(s, r, scanned))
  {
    hide Ranges, Range, Process;
    var s1 := s.(queue := s.queue + [r], accepted := s.accepted + [r]);
    assert s1.sent + s1.queue == s1.accepted;
    ProcessOrderly(s1);
  }

  lemma StepOrderly(s: Scheduler, step: Step)
    requires Orderly(s) && Enabled(s, step)
    ensures Orderly(Next(s, step))
  {
    hide Ranges, Range, Process, OnBlock, OnRequest;
    match step
    case Ask(r, scanned) => AskOrderly(s, r, scanned);
    case Ready => ProcessOrderly(s.(ready := true));
    case Block(lib) => BlockOrderly(s, lib);
    case Poll(_) =>
    case Slowdown(_) =>
  }

  lemma {:induction false} RunOrderly(s: Scheduler, steps: seq<Step>)
    requires Orderly(s) && EnabledRun(s, steps)
    ensures Orderly(Run(s, steps))
    decreases |steps|
  {
    hide Orderly, Next, Enabled;
    if steps != [] {
      StepOrderly(s, steps[0]);
      RunOrderly(Next(s, steps[0]), steps[1..]);
    }
  }

  lemma BegunOrderly(endBlock: nat)
    ensures Orderly(Begun(endBlock))
  {
    assert Ranges([]) == [];
  }

  /** In every run, pauses and a stop included: the requests sent are the first ones accepted;
      the blocks that came, with those still to come, are the ranges sent, end to end; and a
      request is outstanding exactly while blocks are to come, all of them of the last request
      sent. So every block of a request has come before the next one is sent. */
  lemma OneAtATime(endBlock: nat, steps: seq<Step>)
    requires EnabledRun(Begun(endBlock), steps)
    ensures var s := Run(Begun(endBlock), steps);
            && s.sent <= s.accepted
            && s.arrived + s.coming == Ranges(s.sent)
            && (s.pending <==> s.coming != [])
            && (s.sent != [] ==> Ranges(s.sent[..|s.sent| - 1]) <= s.arrived)
  {
    BegunOrderly(endBlock);
    RunOrderly(Begun(endBlock), steps);
    var s := Run(Begun(endBlock), steps);
    assert s.accepted[..|s.sent|] == s.sent;
    if s.sent != [] {
      var last := s.sent[|s.sent| - 1];
      assert last == s.accepted[|s.sent| - 1];
      var before := Ranges(s.sent[..|s.sent| - 1]);
      assert Ranges(s.sent) == before + Range(last);
      RangeSize(last);
      assert |s.arrived| >= |before|;
      assert (s.arrived + s.coming)[..|before|] == s.arrived[..|before|];
    }
  }

  // ---- Answers ----

  /** Blocks that have yet to come for everything accepted. */
  function Left(s: Scheduler): nat {
    |s.coming| + |Ranges(s.queue)|
  }

  function CountBlocks(steps: seq<Step>): nat {
    if steps == [] then 0 else (if steps[0].Block? then 1 else 0) + CountBlocks(steps[1..])
  }

  predicate NoAsk(steps: seq<Step>) {
    forall i :: 0 <= i < |steps| ==> !steps[i].Ask?
  }

  predicate Answered(s: Scheduler, rs: seq<Request>) {
    Ranges(rs) <= s.arrived
  }

  /** Letting a request out changes nothing about what is left. */
  lemma ProcessLeft(s: Scheduler)
    ensures Left(Process(s)) == Left(s)
    ensures Process(s).accepted == s.accepted && Process(s).stopped == s.stopped
    ensures Process(s).ready == s.ready && Process(s).reading == s.reading && Process(s).slowdown == s.slowdown
    ensures Process(s).irreversible == s.irreversible
  {
    if s.ready && !s.pending && s.queue != [] {
      RangesSplit([s.queue[0]], s.queue[1..]);
      assert [s.queue[0]] + s.queue[1..] == s.queue;
      RangesAppend([], s.queue[0]);
      assert [] + [s.queue[0]] == [s.queue[0]];
    }
  }

  /** Each block leaves one less to come, and nothing else changes what is left. */
  lemma StepLeft(s: Scheduler, step: Step)
    requires Enabled(s, step) && !step.Ask?
    ensures Left(Next(s, step)) + (if step.Block? then 1 else 0) == Left(s)
    ensures Next(s, step).accepted == s.accepted
  {
    hide Ranges, Process;
    match step
    case Ready => ProcessLeft(s.(ready := true));
    case Block(lib) =>
      var s1 := s.(coming := s.coming[1..], arrived := s.arrived + [s.coming[0]], reading := false);
      ProcessLeft(s1.(pending := false));
    case Poll(_) =>
    case Slowdown(_) =>
  }

  lemma {:induction false} RunLeft(s: Scheduler, steps: seq<Step>)
    requires EnabledRun(s, steps) && NoAsk(steps)
    ensures Left(Run(s, steps)) + CountBlocks(steps) == Left(s)
    ensures Run(s, steps).accepted == s.accepted
    decreases |steps|
  {
    hide Next, Enabled, Left;
    if steps != [] {
      StepLeft(s, steps[0]);
      RunLeft(Next(s, steps[0]), steps[1..]);
    }
  }

  lemma QueueProper(s: Scheduler)
    requires Orderly(s)
    ensures AllProper(s.queue)
  {
    assert forall i :: 0 <= i < |s.queue| ==> s.queue[i] == s.accepted[|s.sent| + i];
  }

  lemma ProperRanges(rs: seq<Request>)
    requires AllProper(rs)
    ensures Ranges(rs) == [] ==> rs == []
  {
    if rs != [] {
      RangeSize(rs[|rs| - 1]);
    }
  }

  /** With nothing left, everything accepted has been sent and answered. */
  lemma NothingLeft(s: Scheduler)
    requires Orderly(s) && Left(s) == 0
    ensures s.sent == s.accepted && s.arrived == Ranges(s.accepted) && !s.pending && s.queue == []
  {
    QueueProper(s);
    ProperRanges(s.queue);
    assert s.sent + [] == s.sent && s.arrived + [] == s.arrived;
  }

  /** In every run, from any state it reaches: once as many blocks came as were left, however
      pauses are spread among them, every accepted request has been sent and answered in the
      order of acceptance. */
  lemma EverythingSent(endBlock: nat, steps: seq<Step>, more: seq<Step>)
    requires EnabledRun(Begun(endBlock), steps)
    requires EnabledRun(Run(Begun(endBlock), steps), more) && NoAsk(more)
    ensures var s := Run(Begun(endBlock), steps);
            var s' := Run(s, more);
            && Left(s') == Left(s) - CountBlocks(more)
            && (CountBlocks(more) == Left(s) ==>
                  s'.sent == s.accepted && s'.arrived == Ranges(s.accepted) && !s'.pending)
  {
    hide Orderly, Left;
    BegunOrderly(endBlock);
    RunOrderly(Begun(endBlock), steps);
    var s := Run(Begun(endBlock), steps);
    RunOrderly(s, more);
    RunLeft(s, more);
    if CountBlocks(more) == Left(s) {
      NothingLeft(Run(s, more));
    }
  }

  // ---- The stop ----

  /** Some continuation answers everything accepted so far. */
  ghost predicate Answerable(s: Scheduler) {
    exists more :: EnabledRun(s, more) && Answered(Run(s, more), s.accepted)
  }

  /** A stopped process does nothing more. */
  lemma {:induction false} StoppedStays(s: Scheduler, more: seq<Step>)
    requires s.stopped && EnabledRun(s, more)
    ensures Run(s, more).arrived == s.arrived
    decreases |more|
  {
    if more != [] {
      StoppedStays(Next(s, more[0]), more[1..]);
    }
  }

  lemma StoppedLoses(s: Scheduler)
    requires Orderly(s) && s.stopped && s.pending
    ensures !Answerable(s)
  {
    RangesSplit(s.sent, s.queue);
    forall more | EnabledRun(s, more) ensures !Answered(Run(s, more), s.accepted) {
      StoppedStays(s, more);
      assert |Ranges(s.accepted)| >= |Ranges(s.sent)| > |s.arrived|;
    }
  }

  /** A first step after which the rest can be answered is one for the whole. */
  lemma StepAnswerable(s: Scheduler, step: Step)
    requires Enabled(s, step) && Next(s, step).accepted == s.accepted && Answerable(Next(s, step))
    ensures Answerable(s)
  {
    hide Answered, Enabled, Next;
    var s1 := Next(s, step);
    var more :| EnabledRun(s1, more) && Answered(Run(s1, more), s1.accepted);
    var all := [step] + more;
    assert all[0] == step && all[1..] == more;
    assert EnabledRun(s, all) && Run(s, all) == Run(s1, more);
  }

  lemma NothingLeftAnswerable(s: Scheduler)
    requires Orderly(s) && Left(s) == 0
    ensures Answerable(s)
  {
    NothingLeft(s);
    assert EnabledRun(s, []) && Run(s, []) == s;
  }

  /** What is left to come can come to a process that is not asked to slow down. */
  lemma {:induction false} FlowsOn(s: Scheduler)
    requires Orderly(s) && !s.stopped && s.ready && !s.slowdown
    ensures Answerable(s)
    decreases Left(s), !s.reading
  {
    hide Orderly, Answerable, Left, Ranges, Process;
    if Left(s) == 0 {
      NothingLeftAnswerable(s);
    } else if !s.reading {
      StepOrderly(s, Poll(false));
      StepLeft(s, Poll(false));
      FlowsOn(Next(s, Poll(false)));
      StepAnswerable(s, Poll(false));
    } else {
      SomethingComes(s);
      var step := Block(s.irreversible);
      StepOrderly(s, step);
      StepLeft(s, step);
      ProcessLeft(s.(coming := s.coming[1..], arrived := s.arrived + [s.coming[0]], reading := false,
                     pending := false));
      FlowsOn(Next(s, step));
      StepAnswerable(s, step);
    }
  }

  lemma SomethingComes(s: Scheduler)
    requires Orderly(s) && s.ready && 0 < Left(s)
    ensures s.coming != []
  {
    assert s.coming == [] ==> s.queue == [] && Ranges([]) == [];
  }

  /** In a process that has not stopped everything accepted can still be answered. */
  lemma RunningAnswerable(s: Scheduler)
    requires Orderly(s) && !s.stopped
    ensures Answerable(s)
  {
    hide Orderly, Answerable, Process;
    var calm := Next(s, Slowdown(false));
    StepOrderly(s, Slowdown(false));
    if s.ready {
      FlowsOn(calm);
    } else {
      StepOrderly(calm, Ready);
      ProcessLeft(calm.(ready := true));
      FlowsOn(Next(calm, Ready));
      StepAnswerable(calm, Ready);
    }
    StepAnswerable(s, Slowdown(false));
  }

  /** In every run: what was accepted can no longer all be answered if and only if the process
      has stopped with a request outstanding. */
  lemma AnswerableIff(endBlock: nat, steps: seq<Step>)
    requires EnabledRun(Begun(endBlock), steps)
    ensures var s := Run(Begun(endBlock), steps);
            Answerable(s) <==> !(s.stopped && s.pending)
  {
    BegunOrderly(endBlock);
    RunOrderly(Begun(endBlock), steps);
    var s := Run(Begun(endBlock), steps);
    OrderlyAnswerable(s);
  }

  lemma OrderlyAnswerable(s: Scheduler)
    requires Orderly(s)
    ensures Answerable(s) <==> !(s.stopped && s.pending)
  {
    hide Answerable, Ranges;
    if s.stopped && s.pending {
      StoppedLoses(s);
    } else if s.stopped {
      assert Left(s) == 0 by { assert Ranges([]) == [] by { BegunOrderly(0); NoRanges(); } }
      NothingLeftAnswerable(s);
    } else {
      RunningAnswerable(s);
    }
  }

  lemma NoRanges()
    ensures Ranges([]) == []
  {
  }

  /** In every reachable state: deciding between reading and pausing loses an accepted request
      if and only if a pause is due, the last block received is irreversible and just below the
      end of the request sent last, and a request is outstanding - which any queued one
      implies. */
  lemma PauseLosesIff(endBlock: nat, steps: seq<Step>, queueFull: bool)
    requires EnabledRun(Begun(endBlock), steps)
    requires Enabled(Run(Begun(endBlock), steps), Poll(queueFull))
    ensures var s := Run(Begun(endBlock), steps);
            && (s.queue != [] ==> s.pending)
            && (s.pending ==> s.sent != [])
            && (!Answerable(Next(s, Poll(queueFull))) <==>
                  (s.slowdown || queueFull) && s.pending
                  && s.head + 1 == s.sent[|s.sent| - 1].end && s.head <= s.irreversible)
  {
    BegunOrderly(endBlock);
    RunOrderly(Begun(endBlock), steps);
    var s := Run(Begun(endBlock), steps);
    PollLosesIff(s, queueFull);
  }

  lemma PollLosesIff(s: Scheduler, queueFull: bool)
    requires Orderly(s) && Enabled(s, Poll(queueFull))
    ensures s.queue != [] ==> s.pending
    ensures s.pending ==> s.sent != []
    ensures !Answerable(Next(s, Poll(queueFull))) <==>
              (s.slowdown || queueFull) && s.pending
              && s.head + 1 == s.sent[|s.sent| - 1].end && s.head <= s.irreversible
  {
    hide Answerable, Ranges;
    StepOrderly(s, Poll(queueFull));
    OrderlyAnswerable(Next(s, Poll(queueFull)));
  }

  // ---- What each step decides ----

  /** In every run a request is accepted exactly when every block it asks for lies below the
      scanned head, and it goes out at once exactly when the connection is ready and nothing is
      outstanding; a refused one changes nothing. */
  lemma AskAccepted(endBlock: nat, steps: seq<Step>, r: Request, scanned: Option<nat>)
    requires EnabledRun(Begun(endBlock), steps)
    requires Enabled(Run(Begun(endBlock), steps), Ask(r, scanned))
    ensures var s := Run(Begun(endBlock), steps);
            var s' := Next(s, Ask(r, scanned));
            var fits := scanned.Some? && forall n :: n in Range(r) ==> n < scanned.value;
            && (fits ==> s'.accepted == s.accepted + [r])
            && (!fits ==> s' == s)
            && (fits && s.ready && !s.pending ==>
                  s'.sent == s.sent + [r] && s'.coming == Range(r) && s'.endBlock == r.end && s'.queue == [])
            && (fits && !(s.ready && !s.pending) ==> s' == s.(accepted := s'.accepted, queue := s.queue + [r]))
  {
    hide Ranges, Range;
    BegunOrderly(endBlock);
    RunOrderly(Begun(endBlock), steps);
    var s := Run(Begun(endBlock), steps);
    RangeHas(r);
    assert r.end - 1 in Range(r);
    if s.ready && !s.pending {
      assert [r][1..] == [] && s.queue + [r] == [r] && s.coming + Range(r) == Range(r);
    }
  }

  lemma {:induction false} RangeHas(r: Request)
    ensures forall n :: n in Range(r) <==> r.first <= n < r.end
    decreases r.end - r.first
  {
    if r.first < r.end {
      RangeHas(Request(r.first + 1, r.end));
      assert forall n :: n in Range(r) <==> n == r.first || n in Range(Request(r.first + 1, r.end));
    }
  }

  /** In every run the last block that came is the head, and reading stops after each. */
  lemma BlockTaken(endBlock: nat, steps: seq<Step>, lib: nat)
    requires EnabledRun(Begun(endBlock), steps)
    requires Enabled(Run(Begun(endBlock), steps), Block(lib))
    ensures var s := Run(Begun(endBlock), steps);
            var s' := Next(s, Block(lib));
            && s'.arrived == s.arrived + [s.coming[0]]
            && s'.head == s.coming[0] && s'.irreversible == lib && !s'.reading
            && s'.stopped == s.stopped && s'.slowdown == s.slowdown
            && (s'.sent == if |s.coming| == 1 && s.queue != [] then s.sent + [s.queue[0]] else s.sent)
  {
    hide Ranges, Range;
    BegunOrderly(endBlock);
    RunOrderly(Begun(endBlock), steps);
    NextToCome(Run(Begun(endBlock), steps));
  }

  /** In every run: the receiver reads on exactly when it is neither asked to slow down nor has
      its queue full; otherwise it stops exactly when the last block that came is irreversible
      and just below the end of the request sent last, or of the options if there is none; an
      end block of 0 wraps around. */
  lemma PollDecides(endBlock: nat, steps: seq<Step>, queueFull: bool)
    requires EnabledRun(Begun(endBlock), steps)
    requires Enabled(Run(Begun(endBlock), steps), Poll(queueFull))
    ensures var s := Run(Begun(endBlock), steps);
            var s' := Next(s, Poll(queueFull));
            var end := if s.sent == [] then endBlock else s.sent[|s.sent| - 1].end;
            && (s'.reading <==> !s.slowdown && !queueFull)
            && (s'.stopped <==> (s.slowdown || queueFull) && s.head <= s.irreversible
                                && s.head + 1 == if end == 0 then TWO_32 else end)
            && s' == s.(reading := s'.reading, stopped := s'.stopped)
  {
    EndIsLastSent(Begun(endBlock), steps, endBlock);
  }

  predicate EndKnown(s: Scheduler, endBlock: nat) {
    s.endBlock == if s.sent == [] then endBlock else s.sent[|s.sent| - 1].end
  }

  lemma {:induction false} EndIsLastSent(s: Scheduler, steps: seq<Step>, endBlock: nat)
    requires EnabledRun(s, steps) && EndKnown(s, endBlock)
    ensures EndKnown(Run(s, steps), endBlock)
    decreases |steps|
  {
    hide Range, Enabled, Next, EndKnown;
    if steps != [] {
      StepEnd(s, steps[0], endBlock);
      EndIsLastSent(Next(s, steps[0]), steps[1..], endBlock);
    }
  }

  lemma ProcessEnd(s: Scheduler, endBlock: nat)
    requires EndKnown(s, endBlock)
    ensures EndKnown(Process(s), endBlock)
  {
    hide Range;
  }

  lemma StepEnd(s: Scheduler, step: Step, endBlock: nat)
    requires Enabled(s, step) && EndKnown(s, endBlock)
    ensures EndKnown(Next(s, step), endBlock)
  {
    hide Process;
    match step
    case Ask(r, scanned) => ProcessEnd(s.(queue := s.queue + [r], accepted := s.accepted + [r]), endBlock);
    case Ready => ProcessEnd(s.(ready := true), endBlock);
    case Block(lib) =>
      ProcessEnd(s.(coming := s.coming[1..], arrived := s.arrived + [s.coming[0]], reading := false,
                    pending := false), endBlock);
    case _ =>
  }

  /** Three requests for block 4 of a database scanned up to block 10, and a slow-down before
      the first answer. */
  function ThreeTimes(): seq<Step> {
    var ask := Ask(Request(4, 5), Some(10));
    [Ready, Poll(false), ask, ask, ask, Slowdown(true), Block(10), Poll(false)]
  }

  lemma TakeStep(s: Scheduler, steps: seq<Step>)
    requires steps != [] && Enabled(s, steps[0]) && EnabledRun(Next(s, steps[0]), steps[1..])
    ensures EnabledRun(s, steps)
    ensures Run(s, steps) == Run(Next(s, steps[0]), steps[1..])
  {
    hide Enabled, Next;
  }

  lemma ThreeAsked(endBlock: nat)
    ensures var s := Begun(endBlock);
            var r := Request(4, 5);
            var asked := s.(ready := true, reading := true, pending := true, endBlock := 5,
                            accepted := [r, r, r], sent := [r], queue := [r, r], coming := [4]);
            EnabledRun(s, ThreeTimes()[..5]) && Run(s, ThreeTimes()[..5]) == asked
  {
    hide EnabledRun, Run;
    var steps := ThreeTimes()[..5];
    var r := Request(4, 5);
    assert Range(r) == [4] by { assert Range(Request(5, 5)) == []; }
    var s0 := Begun(endBlock);
    var s1 := Next(s0, steps[0]);
    var s2 := Next(s1, steps[1]);
    assert s2 == s0.(ready := true, reading := true);
    var s3 := Next(s2, steps[2]);
    assert s3 == s2.(pending := true, endBlock := 5, accepted := [r], sent := [r], coming := [4]);
    var s4 := Next(s3, steps[3]);
    var s5 := Next(s4, steps[4]);
    assert s5 == s3.(accepted := [r, r, r], queue := [r, r]);
    NoSteps(s5);
    assert steps[4..][1..] == [] && steps[3..][1..] == steps[4..] && steps[2..][1..] == steps[3..]
           && steps[1..][1..] == steps[2..];
    TakeStep(s4, steps[4..]);
    TakeStep(s3, steps[3..]);
    TakeStep(s2, steps[2..]);
    TakeStep(s1, steps[1..]);
    TakeStep(s0, steps);
  }

  lemma NoSteps(s: Scheduler)
    ensures EnabledRun(s, []) && Run(s, []) == s
  {
  }

  /** The answer to the first lets the second out with the same end; the pause due then takes
      that end for the receiver's own and stops it: the second request is never answered, the
      third never sent. */
  lemma StopsWithRequests(endBlock: nat)
    ensures EnabledRun(Begun(endBlock), ThreeTimes())
    ensures var s := Run(Begun(endBlock), ThreeTimes());
            && s.stopped && s.arrived == [4] && |s.sent| == 2 && |s.accepted| == 3
            && !Answerable(s)
  {
    hide Answerable, EnabledRun, Run;
    ThreeAsked(endBlock);
    var first, steps := ThreeTimes()[..5], ThreeTimes()[5..];
    var r := Request(4, 5);
    assert Range(r) == [4] by { assert Range(Request(5, 5)) == []; }
    var s0 := Begun(endBlock);
    var s5 := Run(s0, first);
    var s6 := Next(s5, steps[0]);
    var s7 := Next(s6, steps[1]);
    assert s7 == s6.(reading := false, head := 4, irreversible := 10, arrived := [4], sent := [r, r], queue := [r]);
    var s8 := Next(s7, steps[2]);
    assert s8 == s7.(stopped := true);
    NoSteps(s8);
    assert steps[2..][1..] == [] && steps[1..][1..] == steps[2..];
    TakeStep(s7, steps[2..]);
    TakeStep(s6, steps[1..]);
    TakeStep(s5, steps);
    RunThen(s0, first, steps);
    assert first + steps == ThreeTimes();
    AnswerableIff(endBlock, ThreeTimes());
  }

  lemma {:induction false} RunThen(s: Scheduler, first: seq<Step>, more: seq<Step>)
    requires EnabledRun(s, first) && EnabledRun(Run(s, first), more)
    ensures EnabledRun(s, first + more)
    ensures Run(s, first + more) == Run(Run(s, first), more)
    decreases |first|
  {
    hide Enabled, Next;
    if first == [] {
      assert first + more == more;
    } else {
      assert (first + more)[1..] == first[1..] + more;
      RunThen(Next(s, first[0]), first[1..], more);
    }
  }

  // ---- The receiver ----

  class Requester {
    var ready: bool
    var reading: bool
    var stopped: bool
    var slowdown: bool
    var head: nat
    var irreversible: nat
    var queue: seq<Request>
    var pending: bool
    var endBlock: nat
    var accepted: seq<Request>
    var sent: seq<Request>
    var coming: seq<nat>
    var arrived: seq<nat>

    ghost function Abs(): Scheduler
      reads this
    {
      Scheduler(ready, reading, stopped, slowdown, head, irreversible, queue, pending, endBlock,
                accepted, sent, coming, arrived)
    }

    constructor (endBlock: nat)
      ensures Abs() == Begun(endBlock)
    {
      ready, reading, stopped, slowdown := false, false, false, false;
      head, irreversible := 0, 0;
      queue, pending, this.endBlock := [], false, endBlock;
      accepted, sent, coming, arrived := [], [], [], [];
    }

    /** The node's answer is written down with the request. */
    method SendRequest(r: Request)
      modifies this`sent, this`coming
      ensures sent == old(sent) + [r] && coming == old(coming) + Range(r)
    {
      sent, coming := sent + [r], coming + Range(r);
    }

    method ProcessInteractiveReqs()
      modifies this`queue, this`pending, this`endBlock, this`sent, this`coming
      ensures Abs() == Process(old(Abs()))
    {
      if ready && !pending && |queue| > 0 {
        var r := queue[0];
        queue := queue[1..];
        endBlock := r.end;
        pending := true;
        SendRequest(r);
      }
    }

    method OnBlockReq(r: Request, scanned: Option<nat>)
      modifies this
      ensures Abs() == OnRequest(old(Abs()), r, scanned)
    {
      if scanned == None {
        return;
      }
      if r.first > scanned.value {
        return;
      }
      if r.end > scanned.value {
        return;
      }
      queue, accepted := queue + [r], accepted + [r];
      ProcessInteractiveReqs();
    }

    method StartRead()
      requires !ready && !stopped
      modifies this
      ensures Abs() == Next(old(Abs()), Ready)
    {
      ready := true;
      ProcessInteractiveReqs();
    }

    method ContinueRead(queueFull: bool)
      modifies this
      ensures Abs() == OnPoll(old(Abs()), queueFull)
    {
      if slowdown || queueFull {
        if head == Sub32(endBlock, 1) && irreversible >= head {
          stopped := true;
        }
      } else {
        reading := true;
      }
    }

    /** With the last block of the range nothing is outstanding any more. */
    method FinishRange(num: nat)
      modifies this`queue, this`pending, this`endBlock, this`sent, this`coming
      ensures Abs() == Finish(old(Abs()), num)
    {
      hide Process;
      if num == Sub32(endBlock, 1) {
        pending := false;
        ProcessInteractiveReqs();
      }
    }

    /** The observer moves the block that came from those to come. */
    method TakeNext() returns (num: nat)
      requires coming != []
      modifies this`coming, this`arrived, this`reading
      ensures num == old(coming)[0]
      ensures Abs() == old(Abs()).(coming := old(coming)[1..], arrived := old(arrived) + [num], reading := false)
    {
      num := coming[0];
      coming, arrived, reading := coming[1..], arrived + [num], false;
    }

    method ReceiveResult(lib: nat) returns (num: nat)
      requires coming != [] && irreversible <= lib
      modifies this
      ensures Abs() == OnBlock(old(Abs()), lib) && num == old(coming)[0]
    {
      hide Finish, OnBlock;
      num := TakeNext();
      ghost var taken := Abs();
      FinishRange(num);
      ghost var finished := Abs();
      head, irreversible := num, lib;
      assert Abs() == finished.(head := num, irreversible := lib);
      OnBlockSteps(old(Abs()), taken, lib);
    }

    static lemma OnBlockSteps(s: Scheduler, taken: Scheduler, lib: nat)
      requires s.coming != []
      requires taken == s.(coming := s.coming[1..], arrived := s.arrived + [s.coming[0]], reading := false)
      ensures OnBlock(s, lib) == Finish(taken, s.coming[0]).(head := s.coming[0], irreversible := lib)
    {
      hide Finish;
    }
  }
}
