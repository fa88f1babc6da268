/** The websocket exporter's outbound queue: one sender that is woken by a timer or by the end
    of the last write, and asks the receiver to slow down between two water marks. */
module Exporter {
  import opened Options
  import opened Uint32

  type Msg = seq<bv8>

  /** The low water mark, in unsigned 32-bit arithmetic. */
  function LowMark(hwm: nat): nat {
    (hwm * 3) % TWO_32 / 4
  }

  /** The queue and what may call the sender again: waits on the timer, timer handlers already
      posted, and writes under way. `pushed` and `delivered` record what went in and came out. */
  datatype Queue = Queue(
    hwm: nat, lwm: nat,
    queue: seq<Msg>, sending: Option<Msg>, pauseMsec: nat, counter: nat,
    slowdown: bool, broken: bool,
    waits: nat, posted: nat, writes: nat,
    pushed: seq<Msg>, delivered: seq<Msg>)

  function NextPause(msec: nat): nat {
    if msec == 0 then 5 else if msec < 256 then msec * 2 else msec
  }

  /** Setting or cancelling the timer posts the handlers of the waits it had. */
  function Cancelled(q: Queue): Queue {
    q.(posted := q.posted + q.waits, waits := 0)
  }

  function Send(q: Queue): Queue {
    if q.queue == [] then
      Cancelled(q).(pauseMsec := NextPause(q.pauseMsec), waits := 1)
    else
      q.(pauseMsec := 0,
         slowdown := if |q.queue| >= q.hwm then true else if |q.queue| < q.lwm then false else q.slowdown,
         sending := Some(q.queue[0]), queue := q.queue[1..], writes := q.writes + 1)
  }

  /** The report counter is an unsigned 32-bit number counted down to 0. */
  function NextCount(counter: nat): nat {
    if counter == 0 then TWO_32 - 1 else if counter == 1 then 10000 else counter - 1
  }

  function Push(q: Queue, m: Msg): Queue {
    var q1 := q.(queue := q.queue + [m], pushed := q.pushed + [m],
                 counter := NextCount(q.counter));
    if q.pauseMsec > 0 then Cancelled(q1) else q1
  }

  datatype Step = Queued(m: Msg) | TimeOut | Woken | Written(ok: bool)

  predicate Enabled(q: Queue, step: Step) {
    match step
    case Queued(_) => true
    case TimeOut => 0 < q.waits
    case Woken => 0 < q.posted
    case Written(_) => 0 < q.writes && q.sending.Some?
  }

  function Next(q: Queue, step: Step): Queue
    requires Enabled(q, step)
  {
    match step
    case Queued(m) => Push(q, m)
    case TimeOut => Cancelled(q)
    case Woken => Send(q.(posted := q.posted - 1))
    case Written(ok) =>
      var q1 := q.(writes := q.writes - 1);
      if ok then Send(q1.(delivered := q.delivered + [q.sending.value], sending := None))
      else q1.(broken := true)
  }

  predicate EnabledRun(q: Queue, steps: seq<Step>)
    decreases |steps|
  {
    steps == [] || (Enabled(q, steps[0]) && EnabledRun(Next(q, steps[0]), steps[1..]))
  }

  function Run(q: Queue, steps: seq<Step>): Queue
    requires EnabledRun(q, steps)
    decreases |steps|
  {
    if steps == [] then q else Run(Next(q, steps[0]), steps[1..])
  }

  function Started(hwm: nat): Queue {
    Send(Queue(hwm, LowMark(hwm), [], None, 0, 1000, false, false, 0, 0, 0, [], []))
  }

  lemma {:induction false} RunAppend(q: Queue, first: seq<Step>, more: seq<Step>)
    requires EnabledRun(q, first) && EnabledRun(Run(q, first), more)
    ensures EnabledRun(q, first + more)
    ensures Run(q, first + more) == Run(Run(q, first), more)
    decreases |first|
  {
    if first == [] {
      assert first + more == more;
    } else {
      assert (first + more)[1..] == first[1..] + more;
      RunAppend(Next(q, first[0]), first[1..], more);
    }
  }

  // ---- Delivery ----

  /** What is on its way: the message being written. */
  function UnderWay(q: Queue): seq<Msg> {
    if q.sending.Some? then [q.sending.value] else []
  }

  /** Exactly one thing is left that will call the sender, a write exactly while a message is
      under way; a pause in force means it is the timer. The queue, the message under way and
      what was delivered are what was pushed, in order. */
  predicate Sound(q: Queue) {
    && 1 <= q.counter
    && q.waits + q.posted + q.writes == (if q.broken then 0 else 1)
    && (!q.broken ==> (q.writes == 1 <==> q.sending.Some?))
    && (!q.broken ==> (q.writes == 1 <==> q.pauseMsec == 0))
    && q.delivered + UnderWay(q) + q.queue == q.pushed
  }

  /** The report counter never reaches the value that would wrap. */
  lemma CountStays(counter: nat)
    requires 1 <= counter
    ensures 1 <= NextCount(counter)
  {
  }

  lemma PauseStays(msec: nat)
    ensures 0 < NextPause(msec)
  {
  }

  /** The sender, called with nothing else left to call it. */
  lemma SendSound(q: Queue)
    requires 1 <= q.counter && !q.broken && q.sending.None?
    requires q.waits + q.posted + q.writes == 0
    requires q.delivered + q.queue == q.pushed
    ensures Sound(Send(q))
  {
    hide LowMark, NextPause;
    PauseStays(q.pauseMsec);
    if q.queue != [] {
      assert q.delivered + [q.queue[0]] + q.queue[1..] == q.delivered + q.queue;
    }
  }

  lemma PushSound(q: Queue, m: Msg)
    requires Sound(q)
    ensures Sound(Push(q, m))
  {
    hide LowMark, NextCount;
    CountStays(q.counter);
    assert q.delivered + UnderWay(q) + (q.queue + [m]) == q.delivered + UnderWay(q) + q.queue + [m];
  }

  lemma StepSound(q: Queue, step: Step)
    requires Sound(q) && Enabled(q, step)
    ensures Sound(Next(q, step))
  {
    hide LowMark, Send, Push;
    match step
    case Queued(m) => PushSound(q, m);
    case TimeOut =>
    case Woken =>
      assert q.delivered + [] + q.queue == q.delivered + q.queue;
      SendSound(q.(posted := q.posted - 1));
    case Written(ok) =>
      if ok {
        SendSound(q.(writes := q.writes - 1, delivered := q.delivered + [q.sending.value], sending := None));
      }
  }

  lemma {:induction false} RunSound(q: Queue, steps: seq<Step>)
    requires Sound(q) && EnabledRun(q, steps)
    ensures Sound(Run(q, steps))
    decreases |steps|
  {
    hide Sound, Enabled, Next;
    if steps != [] {
      StepSound(q, steps[0]);
      RunSound(Next(q, steps[0]), steps[1..]);
    }
  }

  /** Short of a write error, in every interleaving of pushes, timer handlers and completed
      writes, with the timer cancelled by any push in a pause: messages are delivered once and
      in order, none is lost, and there is always exactly one continuation. */
  lemma DeliversInOrder(hwm: nat, steps: seq<Step>)
    requires EnabledRun(Started(hwm), steps)
    ensures var q := Run(Started(hwm), steps);
            && (!q.broken ==> q.waits + q.posted + q.writes == 1)
            && q.delivered + UnderWay(q) + q.queue == q.pushed
  {
    StartedSound(hwm);
    RunSound(Started(hwm), steps);
  }

  lemma StartedSound(hwm: nat)
    ensures Sound(Started(hwm))
  {
  }

  // ---- Back pressure ----

  /** While the receiver is asked to slow down, a write is under way and enough is queued to
      come by the low mark. */
  predicate Braked(q: Queue) {
    q.slowdown ==> q.lwm <= |q.queue| + 1 && (!q.broken ==> q.writes == 1)
  }

  lemma StepBraked(q: Queue, step: Step)
    requires Sound(q) && Braked(q) && 2 <= q.lwm <= q.hwm && Enabled(q, step)
    ensures Braked(Next(q, step))
    ensures Next(q, step).lwm == q.lwm && Next(q, step).hwm == q.hwm
  {
  }

  lemma {:induction false} RunBraked(q: Queue, steps: seq<Step>)
    requires Sound(q) && Braked(q) && 2 <= q.lwm <= q.hwm && EnabledRun(q, steps)
    ensures Braked(Run(q, steps)) && Run(q, steps).lwm == q.lwm && Run(q, steps).hwm == q.hwm
    decreases |steps|
  {
    hide Sound, Braked, Enabled, Next;
    if steps != [] {
      StepSound(q, steps[0]);
      StepBraked(q, steps[0]);
      RunBraked(Next(q, steps[0]), steps[1..]);
    }
  }

  /** Marks far enough apart from zero: the receiver is never left slowed down by an exporter
      with nothing to send, nor, short of a write error, by one that waits for its timer. */
  lemma NoDeadlock(hwm: nat, steps: seq<Step>)
    requires 2 <= LowMark(hwm) && EnabledRun(Started(hwm), steps)
    ensures var q := Run(Started(hwm), steps);
            q.slowdown ==> q.queue != [] && (!q.broken ==> q.writes == 1)
  {
    MarksOrdered(hwm);
    StartedSound(hwm);
    RunBraked(Started(hwm), steps);
  }

  lemma MarksOrdered(hwm: nat)
    ensures LowMark(hwm) <= hwm
  {
    assert (hwm * 3) % TWO_32 <= hwm * 3;
  }

  /** Limits the product of which does not wrap around have three quarters for a low mark, which
      is far enough from zero from three up. */
  lemma UsualMarks(hwm: nat)
    requires hwm <= 1431655765
    ensures 4 * LowMark(hwm) <= 3 * hwm < 4 * LowMark(hwm) + 4
    ensures 3 <= hwm ==> 2 <= LowMark(hwm)
  {
    assert hwm * 3 < TWO_32;
  }

  /** With a low mark of 0 or 1 a slowed-down receiver is never released. */
  lemma {:induction false} NeverReleased(q: Queue, steps: seq<Step>)
    requires q.lwm <= 1 && q.slowdown && EnabledRun(q, steps)
    ensures Run(q, steps).slowdown
    decreases |steps|
  {
    if steps != [] {
      NeverReleased(Next(q, steps[0]), steps[1..]);
    }
  }

  function Pushes(n: nat): seq<Step> {
    if n == 0 then [] else [Queued([])] + Pushes(n - 1)
  }

  function Writes(n: nat): seq<Step> {
    if n == 0 then [] else [Written(true)] + Writes(n - 1)
  }

  lemma {:induction false} PushMany(q: Queue, n: nat)
    requires Sound(q) && q.writes == 0 && !q.broken && 0 < n
    ensures EnabledRun(q, Pushes(n))
    ensures var q' := Run(q, Pushes(n));
            && Sound(q') && !q'.broken && q'.posted == 1
            && |q'.queue| == |q.queue| + n && q'.hwm == q.hwm && q'.lwm == q.lwm && q'.slowdown == q.slowdown
    decreases n
  {
    var q1 := Next(q, Queued([]));
    StepSound(q, Queued([]));
    assert Pushes(n)[0] == Queued([]) && Pushes(n)[1..] == Pushes(n - 1);
    assert q1.posted == 1 && |q1.queue| == |q.queue| + 1;
    if 1 < n {
      PushMany(q1, n - 1);
    } else {
      assert Pushes(0) == [];
      assert Run(q1, []) == q1 && EnabledRun(q1, []);
    }
  }

  /** Each write takes one message; what was asked of the receiver stays until the queue is
      seen below the low mark. */
  lemma {:induction false} WriteMany(q: Queue, n: nat)
    requires Sound(q) && !q.broken && q.writes == 1 && q.slowdown
    requires n <= |q.queue| && q.lwm <= q.hwm
    ensures EnabledRun(q, Writes(n))
    ensures var q' := Run(q, Writes(n));
            && Sound(q') && !q'.broken && q'.writes == 1 && |q'.queue| == |q.queue| - n
            && (q'.slowdown <==> n == 0 || |q.queue| - n + 1 >= q.lwm)
    decreases n
  {
    if 0 < n {
      WriteLast(q, n);
    }
  }

  lemma {:induction false} WriteLast(q: Queue, n: nat)
    requires Sound(q) && !q.broken && q.writes == 1
    requires 0 < n <= |q.queue| && q.lwm <= q.hwm
    requires q.slowdown || |q.queue| + 1 <= q.lwm
    ensures EnabledRun(q, Writes(n))
    ensures var q' := Run(q, Writes(n));
            && Sound(q') && !q'.broken && q'.writes == 1 && |q'.queue| == |q.queue| - n
            && (q'.slowdown <==> q.slowdown && |q.queue| - n + 1 >= q.lwm)
    decreases n
  {
    var q1 := Next(q, Written(true));
    StepSound(q, Written(true));
    assert Writes(n)[0] == Written(true) && Writes(n)[1..] == Writes(n - 1);
    if 1 < n {
      WriteLast(q1, n - 1);
    } else {
      assert Writes(0) == [];
      assert Run(q1, []) == q1 && EnabledRun(q1, []);
    }
  }

  /** From every reachable state with the receiver slowed down, whatever the queue has grown
      to: without new pushes it is released by the write number size - low mark + 2 and by none
      before it. */
  lemma ReleasedAfter(hwm: nat, steps: seq<Step>, n: nat)
    requires 2 <= LowMark(hwm) && EnabledRun(Started(hwm), steps)
    requires var q := Run(Started(hwm), steps); q.slowdown && !q.broken && n <= |q.queue|
    ensures var q := Run(Started(hwm), steps);
            && |q.queue| - q.lwm + 2 <= |q.queue|
            && EnabledRun(q, Writes(n))
            && (Run(q, Writes(n)).slowdown <==> n < |q.queue| - q.lwm + 2)
  {
    MarksOrdered(hwm);
    StartedSound(hwm);
    RunSound(Started(hwm), steps);
    RunBraked(Started(hwm), steps);
    WriteMany(Run(Started(hwm), steps), n);
  }

  /** A burst of hwm messages and the writes of all of them. */
  function Burst(hwm: nat): seq<Step>
    requires 0 < hwm
  {
    Pushes(hwm) + ([Woken] + Writes(hwm - 1))
  }

  /** With a low mark of 0 or 1, a burst up to the high mark leaves the receiver slowed down
      with an empty queue. */
  lemma BurstDeadlocks(hwm: nat)
    requires 0 < hwm && LowMark(hwm) <= 1
    ensures EnabledRun(Started(hwm), Burst(hwm))
    ensures Run(Started(hwm), Burst(hwm)).slowdown && Run(Started(hwm), Burst(hwm)).queue == []
  {
    hide Writes, Pushes, LowMark, Run, EnabledRun;
    var q0 := Started(hwm);
    StartedSound(hwm);
    MarksOrdered(hwm);
    PushMany(q0, hwm);
    var q1 := Run(q0, Pushes(hwm));
    BurstTail(q1, hwm);
    RunAppend(q0, Pushes(hwm), [Woken] + Writes(hwm - 1));
  }

  /** A limit of 2, and the first one whose mark wraps around, lock up like that. */
  lemma LockingLimits()
    ensures LowMark(2) == 1 && LowMark(1431655766) == 0
    ensures forall hwm | hwm in {2, 1431655766} ::
              EnabledRun(Started(hwm), Burst(hwm))
              && Run(Started(hwm), Burst(hwm)).slowdown && Run(Started(hwm), Burst(hwm)).queue == []
  {
    hide Run, EnabledRun, Burst;
    BurstDeadlocks(2);
    BurstDeadlocks(1431655766);
  }

  lemma BurstTail(q: Queue, hwm: nat)
    requires Sound(q) && !q.broken && q.posted == 1
    requires 0 < hwm == q.hwm == |q.queue| && q.lwm <= 1
    ensures EnabledRun(q, [Woken] + Writes(hwm - 1))
    ensures Run(q, [Woken] + Writes(hwm - 1)).slowdown && Run(q, [Woken] + Writes(hwm - 1)).queue == []
  {
    hide Writes;
    StepSound(q, Woken);
    var q1 := Next(q, Woken);
    WriteMany(q1, hwm - 1);
    assert ([Woken] + Writes(hwm - 1))[1..] == Writes(hwm - 1);
  }

  /** The marks decide: in every run a slowed-down receiver leaves the exporter something to
      send if and only if the low mark is at least 2. */
  lemma DeadlockIff(hwm: nat)
    requires 0 < hwm
    ensures 2 <= LowMark(hwm) <==>
            forall steps :: EnabledRun(Started(hwm), steps) ==>
              (Run(Started(hwm), steps).slowdown ==> Run(Started(hwm), steps).queue != [])
  {
    if 2 <= LowMark(hwm) {
      forall steps | EnabledRun(Started(hwm), steps)
        ensures Run(Started(hwm), steps).slowdown ==> Run(Started(hwm), steps).queue != []
      {
        NoDeadlock(hwm, steps);
      }
    } else {
      BurstDeadlocks(hwm);
    }
  }

  // ---- What the sender decides ----

  lemma {:induction false} RunMarks(q: Queue, steps: seq<Step>)
    requires EnabledRun(q, steps)
    ensures Run(q, steps).hwm == q.hwm && Run(q, steps).lwm == q.lwm
    decreases |steps|
  {
    if steps != [] {
      assert Next(q, steps[0]).hwm == q.hwm && Next(q, steps[0]).lwm == q.lwm;
      RunMarks(Next(q, steps[0]), steps[1..]);
    }
  }

  /** In every run, whatever calls the sender: at the high mark or above it the receiver is asked
      to slow down, below the low mark it is released, in between and with nothing to send it is
      left alone. The oldest message goes out, or the timer is armed. */
  lemma SenderDecides(hwm: nat, steps: seq<Step>, step: Step)
    requires 0 < hwm && EnabledRun(Started(hwm), steps)
    requires Enabled(Run(Started(hwm), steps), step) && (step == Woken || step == Written(true))
    ensures var q := Run(Started(hwm), steps);
            var q' := Next(q, step);
            && (hwm <= |q.queue| ==> q'.slowdown)
            && (0 < |q.queue| < LowMark(hwm) ==> !q'.slowdown)
            && (LowMark(hwm) <= |q.queue| < hwm || q.queue == [] ==> q'.slowdown == q.slowdown)
            && (if q.queue == [] then
                  q'.sending == None && 0 < q'.pauseMsec && q'.waits == 1 && q'.writes == 0
                else
                  q'.sending == Some(q.queue[0]) && q'.queue == q.queue[1..] && q'.pauseMsec == 0
                  && q'.waits == 0 && q'.writes == 1)
            && q'.delivered == q.delivered + (if step.Written? then UnderWay(q) else [])
  {
    hide LowMark, Run, EnabledRun, NextPause;
    StartedSound(hwm);
    RunSound(Started(hwm), steps);
    RunMarks(Started(hwm), steps);
    MarksOrdered(hwm);
    PauseStays(Run(Started(hwm), steps).pauseMsec);
  }

  /** In every run a message queued while nothing is being written calls the sender at once. */
  lemma PushWakes(hwm: nat, steps: seq<Step>, m: Msg)
    requires EnabledRun(Started(hwm), steps)
    ensures var q := Run(Started(hwm), steps);
            !q.broken && q.writes == 0 ==> Next(q, Queued(m)).posted == 1 && Next(q, Queued(m)).waits == 0
  {
    StartedSound(hwm);
    RunSound(Started(hwm), steps);
  }

  /** A burst up to the high mark is always noticed. */
  lemma BurstBrakes(hwm: nat)
    requires 0 < hwm
    ensures EnabledRun(Started(hwm), Pushes(hwm) + [Woken])
    ensures Run(Started(hwm), Pushes(hwm) + [Woken]).slowdown
  {
    hide Pushes;
    StartedSound(hwm);
    PushMany(Started(hwm), hwm);
    var q := Run(Started(hwm), Pushes(hwm));
    assert [Woken][1..] == [];
    assert EnabledRun(q, [Woken]) && Run(q, [Woken]) == Next(q, Woken);
    RunAppend(Started(hwm), Pushes(hwm), [Woken]);
  }

  /** After a failed write nothing is delivered any more, and nothing calls the sender. */
  lemma ErrorEnds(q: Queue, more: seq<Step>)
    requires Sound(q) && Enabled(q, Written(false)) && EnabledRun(Next(q, Written(false)), more)
    ensures var q' := Run(Next(q, Written(false)), more);
            q'.broken && q'.delivered == q.delivered && (forall step :: Enabled(q', step) ==> step.Queued?)
  {
    BrokenStays(Next(q, Written(false)), more);
  }

  lemma {:induction false} BrokenStays(q: Queue, more: seq<Step>)
    requires q.broken && q.waits + q.posted + q.writes == 0 && EnabledRun(q, more)
    ensures var q' := Run(q, more);
            q'.broken && q'.delivered == q.delivered && q'.waits + q'.posted + q'.writes == 0
    decreases |more|
  {
    if more != [] {
      BrokenStays(Next(q, more[0]), more[1..]);
    }
  }

  /** The report counter after n messages: down from 1000, then round by ten thousands. */
  function CountAfter(n: nat): nat {
    if n < 1000 then 1000 - n else 10000 - (n - 1000) % 10000
  }

  lemma CountNext(n: nat)
    ensures NextCount(CountAfter(n)) == CountAfter(n + 1)
  {
  }

  /** In every run the queue's size is reported after message 1000 and every 10000 from there. */
  lemma ReportsCounted(hwm: nat, steps: seq<Step>)
    requires EnabledRun(Started(hwm), steps)
    ensures Run(Started(hwm), steps).counter == CountAfter(|Run(Started(hwm), steps).pushed|)
  {
    CountsPushes(Started(hwm), steps);
  }

  lemma {:induction false} CountsPushes(q: Queue, steps: seq<Step>)
    requires EnabledRun(q, steps) && q.counter == CountAfter(|q.pushed|)
    ensures Run(q, steps).counter == CountAfter(|Run(q, steps).pushed|)
    decreases |steps|
  {
    hide CountAfter, NextCount, Send;
    if steps != [] {
      StepCounts(q, steps[0]);
      CountsPushes(Next(q, steps[0]), steps[1..]);
    }
  }

  lemma StepCounts(q: Queue, step: Step)
    requires Enabled(q, step) && q.counter == CountAfter(|q.pushed|)
    ensures Next(q, step).counter == CountAfter(|Next(q, step).pushed|)
  {
    hide CountAfter, NextCount;
    CountNext(|q.pushed|);
  }

  function Idle(n: nat): seq<Step> {
    if n == 0 then [] else [TimeOut, Woken] + Idle(n - 1)
  }

  function Doubled(n: nat): nat {
    if n == 0 then 5 else 2 * Doubled(n - 1)
  }

  /** With nothing to send the timer's pause doubles from 5 milliseconds to 320. */
  lemma IdleDoubles(hwm: nat, n: nat)
    ensures EnabledRun(Started(hwm), Idle(n))
    ensures Run(Started(hwm), Idle(n)).pauseMsec == Doubled(if n < 6 then n else 6)
  {
    assert Doubled(0) == 5;
    PauseDoubles(Started(hwm), 0, n);
  }

  lemma {:induction false} PauseDoubles(q: Queue, before: nat, n: nat)
    requires q.queue == [] && 0 < q.waits && q.pauseMsec == Doubled(if before < 6 then before else 6)
    ensures EnabledRun(q, Idle(n))
    ensures Run(q, Idle(n)).pauseMsec == Doubled(if before + n < 6 then before + n else 6)
    decreases n
  {
    hide Doubled, NextPause;
    if 0 < n {
      NextDoubled(if before < 6 then before else 6);
      var q2 := IdleOnce(q, n);
      PauseDoubles(q2, before + 1, n - 1);
    }
  }

  /** One expiry of the timer with nothing to send. */
  lemma IdleOnce(q: Queue, n: nat) returns (q2: Queue)
    requires q.queue == [] && 0 < q.waits && 0 < n
    ensures q2.queue == [] && q2.waits == 1 && q2.pauseMsec == NextPause(q.pauseMsec)
    ensures EnabledRun(q2, Idle(n - 1)) ==>
              EnabledRun(q, Idle(n)) && Run(q, Idle(n)) == Run(q2, Idle(n - 1))
  {
    hide NextPause;
    var q1 := Next(q, TimeOut);
    q2 := Next(q1, Woken);
    var steps := Idle(n);
    assert steps[0] == TimeOut && steps[1..][0] == Woken && steps[1..][1..] == Idle(n - 1);
    if EnabledRun(q2, Idle(n - 1)) {
      assert EnabledRun(q1, steps[1..]) && Run(q1, steps[1..]) == Run(q2, Idle(n - 1));
    }
  }

  lemma NextDoubled(k: nat)
    requires k <= 6
    ensures NextPause(Doubled(k)) == Doubled(if k + 1 < 6 then k + 1 else 6)
  {
    assert Doubled(0) == 5 && Doubled(1) == 10 && Doubled(2) == 20 && Doubled(3) == 40;
    assert Doubled(4) == 80 && Doubled(5) == 160 && Doubled(6) == 320;
  }

  // ---- The plugin ----

  class ExpWs {
    var hwm: nat
    var lwm: nat
    var queue: seq<Msg>
    var sending: Option<Msg>
    var pauseMsec: nat
    var counter: nat
    var slowdown: bool
    var broken: bool
    var waits: nat
    var posted: nat
    var writes: nat
    var pushed: seq<Msg>
    var delivered: seq<Msg>

    ghost function Abs(): Queue
      reads this
    {
      Queue(hwm, lwm, queue, sending, pauseMsec, counter, slowdown, broken, waits, posted, writes, pushed, delivered)
    }

    /** The high mark comes from the options; 0 is refused. */
    constructor (hwm: nat)
      requires 0 < hwm
      ensures Abs() == Started(hwm)
    {
      this.hwm, lwm := hwm, (hwm * 3) % TWO_32 / 4;
      queue, sending, pauseMsec, counter := [], None, 0, 1000;
      slowdown, broken := false, false;
      waits, posted, writes := 0, 0, 0;
      pushed, delivered := [], [];
      new;
      AsyncSendEvents();
    }

    method SlowdownReceiver(pause: bool)
      modifies this`slowdown
      ensures slowdown == pause
    {
      slowdown := pause;
    }

    method CancelTimer()
      modifies this`waits, this`posted
      ensures waits == 0 && posted == old(posted + waits)
    {
      posted, waits := posted + waits, 0;
    }

    method AsyncSendEvents()
      modifies this
      ensures Abs() == Send(old(Abs()))
    {
      if queue == [] {
        if pauseMsec == 0 {
          pauseMsec := 5;
        } else if pauseMsec < 256 {
          pauseMsec := pauseMsec * 2;
        }
        CancelTimer();
        waits := waits + 1;
      } else {
        pauseMsec := 0;
        if |queue| >= hwm {
          SlowdownReceiver(true);
        } else if |queue| < lwm {
          SlowdownReceiver(false);
        }
        sending := Some(queue[0]);
        queue := queue[1..];
        writes := writes + 1;
      }
    }

    method PushMsg(m: Msg)
      requires 1 <= counter
      modifies this
      ensures Abs() == Push(old(Abs()), m)
    {
      queue, pushed := queue + [m], pushed + [m];
      if pauseMsec > 0 {
        CancelTimer();
      }
      counter := counter - 1;
      if counter == 0 {
        counter := 10000;
      }
    }

    method OnTimer()
      requires 0 < posted
      modifies this
      ensures Abs() == Next(old(Abs()), Woken)
    {
      posted := posted - 1;
      AsyncSendEvents();
    }

    method OnWritten(ok: bool)
      requires 0 < writes && sending.Some?
      modifies this
      ensures Abs() == Next(old(Abs()), Written(ok))
    {
      writes := writes - 1;
      if ok {
        delivered, sending := delivered + [sending.value], None;
        AsyncSendEvents();
      } else {
        broken := true;
      }
    }
  }
}
