/** The receiver and the exporter together: what the exporter asks of the receiver, and how its
    own writes let the receiver read again. */
module Backpressure {
  import opened ReceiverSpec
  import opened Runs
  import opened Store
  import opened Chainbase
  import Exporter

  datatype Joint = Joint(w: World, q: Exporter.Queue)

  datatype Step = OfReceiver(r: Runs.Step) | OfExporter(e: Exporter.Step)

  /** The receiver is slowed down by the exporter and by nobody else. */
  predicate Enabled(j: Joint, step: Step) {
    match step
    case OfReceiver(r) => !r.Slowdown? && Runs.Enabled(j.w, r)
    case OfExporter(e) => Exporter.Enabled(j.q, e)
  }

  /** Both live in one process: a new one starts with an empty queue. */
  function Next(valid: Bytes -> bool, j: Joint, step: Step): Joint
    requires Enabled(j, step)
  {
    match step
    case OfReceiver(r) =>
      Joint(Runs.Next(valid, j.w, r), if r.Start? then Exporter.Started(j.q.hwm) else j.q)
    case OfExporter(e) =>
      var q := Exporter.Next(j.q, e);
      Joint(Runs.Next(valid, j.w, Slowdown(q.slowdown)), q)
  }

  predicate EnabledRun(valid: Bytes -> bool, j: Joint, steps: seq<Step>)
    decreases |steps|
  {
    steps == [] || (Enabled(j, steps[0]) && EnabledRun(valid, Next(valid, j, steps[0]), steps[1..]))
  }

  function Run(valid: Bytes -> bool, j: Joint, steps: seq<Step>): Joint
    requires EnabledRun(valid, j, steps)
    decreases |steps|
  {
    if steps == [] then j else Run(valid, Next(valid, j, steps[0]), steps[1..])
  }

  /** The receiver knows what the exporter last asked of it, and the exporter can move. */
  ghost predicate InStep(j: Joint, hwm: nat) {
    && j.w.s.slowdown == j.q.slowdown
    && Exporter.Sound(j.q) && Exporter.Braked(j.q)
    && j.q.hwm == hwm && j.q.lwm == Exporter.LowMark(hwm)
  }

  lemma AdmitSlowdown(s: State, m: Block)
    ensures Admit(s, m).state.slowdown == s.slowdown
  {
    hide RollbackSpec, RollbackEnds;
  }

  lemma ReceiveSlowdown(valid: Bytes -> bool, s: State, m: Block)
    ensures ReceiveSpec(valid, s, m).state.slowdown == s.slowdown
  {
    hide Admit, ApplyBlock, CacheRows;
    AdmitSlowdown(s.(reading := false), m);
  }

  lemma StoreSlowdown(valid: Bytes -> bool, s: State, m: Block)
    ensures StoreSpec(valid, s, m).state.slowdown == s.slowdown
  {
    hide Admit, ApplyBlock, CacheRows;
    AdmitSlowdown(s.(reading := false), m);
  }

  /** No step of the receiver touches what was asked of it, but for a new start, which forgets. */
  lemma ReceiverSlowdown(valid: Bytes -> bool, w: World, r: Runs.Step)
    requires !r.Slowdown?
    ensures Runs.Next(valid, w, r).s.slowdown == (if r.Start? then false else w.s.slowdown)
  {
    hide Below, Handle, ReceiveSpec, StoreSpec, Db.UndoTimes;
    if r.Receive? {
      ReceiveSlowdown(valid, w.s, r.m);
    } else if r.DieStoring? {
      StoreSlowdown(valid, w.s, r.m);
    }
  }

  lemma StepInStep(valid: Bytes -> bool, j: Joint, step: Step, hwm: nat)
    requires InStep(j, hwm) && 2 <= Exporter.LowMark(hwm) && Enabled(j, step)
    ensures InStep(Next(valid, j, step), hwm)
  {
    hide Exporter.Sound, Exporter.Braked, Exporter.LowMark;
    Exporter.MarksOrdered(hwm);
    match step
    case OfReceiver(r) =>
      ReceiverSlowdown(valid, j.w, r);
      StartedInStep(hwm);
    case OfExporter(e) =>
      Exporter.StepSound(j.q, e);
      Exporter.StepBraked(j.q, e);
  }

  lemma StartedInStep(hwm: nat)
    ensures var q := Exporter.Started(hwm);
            !q.slowdown && Exporter.Sound(q) && Exporter.Braked(q) && q.hwm == hwm && q.lwm == Exporter.LowMark(hwm)
  {
    Exporter.StartedSound(hwm);
  }

  lemma {:induction false} RunInStep(valid: Bytes -> bool, j: Joint, steps: seq<Step>, hwm: nat)
    requires InStep(j, hwm) && 2 <= Exporter.LowMark(hwm) && EnabledRun(valid, j, steps)
    ensures InStep(Run(valid, j, steps), hwm)
    decreases |steps|
  {
    hide InStep, Enabled, Next;
    if steps != [] {
      StepInStep(valid, j, steps[0], hwm);
      RunInStep(valid, Next(valid, j, steps[0]), steps[1..], hwm);
    }
  }

  function Writes(n: nat): seq<Step> {
    if n == 0 then [] else [OfExporter(Exporter.Written(true))] + Writes(n - 1)
  }

  /** Writes of the exporter alone move its queue as they would by themselves, and leave of the
      receiver everything but what it is asked for. */
  lemma {:induction false} WritesOnly(valid: Bytes -> bool, j: Joint, n: nat)
    requires j.w.s.slowdown == j.q.slowdown
    requires Exporter.EnabledRun(j.q, Exporter.Writes(n))
    ensures EnabledRun(valid, j, Writes(n))
    ensures var j' := Run(valid, j, Writes(n));
            && j'.q == Exporter.Run(j.q, Exporter.Writes(n))
            && j'.w == j.w.(s := j.w.s.(slowdown := j'.q.slowdown))
    decreases n
  {
    hide Exporter.Enabled, Exporter.Next;
    if 0 < n {
      var step := OfExporter(Exporter.Written(true));
      assert Exporter.Writes(n)[0] == Exporter.Written(true) && Exporter.Writes(n)[1..] == Exporter.Writes(n - 1);
      assert Writes(n)[0] == step && Writes(n)[1..] == Writes(n - 1);
      WritesOnly(valid, Next(valid, j, step), n - 1);
    }
  }

  /** In every run of receiver and exporter together, from any state with the receiver slowed
      down by an exporter that can write: a number of completed writes known from the queue
      releases the receiver, none before the last of them does, and nothing else of the receiver
      has changed; so it reads again unless it has another reason to pause. */
  lemma WritesRelease(valid: Bytes -> bool, w0: World, hwm: nat, steps: seq<Step>, n: nat, queueFull: bool)
    requires Initial(valid, w0) && 2 <= Exporter.LowMark(hwm)
    requires EnabledRun(valid, Joint(w0, Exporter.Started(hwm)), steps)
    requires var j := Run(valid, Joint(w0, Exporter.Started(hwm)), steps);
             j.w.s.slowdown && !j.q.broken && n <= |j.q.queue| - j.q.lwm + 2
    ensures var j := Run(valid, Joint(w0, Exporter.Started(hwm)), steps);
            && EnabledRun(valid, j, Writes(n))
            && var released := Run(valid, j, Writes(n)).w.s;
               && released == j.w.s.(slowdown := n < |j.q.queue| - j.q.lwm + 2)
               && (n == |j.q.queue| - j.q.lwm + 2 && !MustPause(j.w.s.(slowdown := false), queueFull)
                   ==> PollSpec(released, queueFull).state.reading)
  {
    hide InStep, EnabledRun, Run, Exporter.LowMark, Exporter.Run, Exporter.EnabledRun;
    var j0 := Joint(w0, Exporter.Started(hwm));
    assert InStep(j0, hwm) by { InitialInStep(valid, w0, hwm); }
    RunInStep(valid, j0, steps, hwm);
    var j := Run(valid, j0, steps);
    QueueReleases(j, hwm, n);
    WritesOnly(valid, j, n);
  }

  // ---- Nothing is read meanwhile ----

  /** A step that may release the receiver. */
  predicate IsWrite(step: Step) {
    step.OfExporter? && step.e == Exporter.Written(true)
  }

  function CountWrites(steps: seq<Step>): nat {
    if steps == [] then 0 else (if IsWrite(steps[0]) then 1 else 0) + CountWrites(steps[1..])
  }

  predicate Receives(step: Step) {
    step.OfReceiver? && (step.r.Receive? || step.r.DieStoring?)
  }

  predicate NoNewStart(steps: seq<Step>) {
    forall i :: 0 <= i < |steps| ==> !(steps[i].OfReceiver? && steps[i].r.Start?)
  }

  /** Slowed down, not reading, and with more writes to come than that before a release. */
  ghost predicate Held(j: Joint, hwm: nat, writes: nat) {
    && InStep(j, hwm) && j.w.s.slowdown && !j.w.s.reading
    && writes < |j.q.queue| - j.q.lwm + 2
  }

  /** Whatever the receiver does, it does not read while it is slowed down. */
  lemma NotReading(valid: Bytes -> bool, w: World, r: Runs.Step)
    requires Runs.Enabled(w, r) && w.s.slowdown && !w.s.reading && !r.Start?
    ensures !r.Receive? && !r.DieStoring?
    ensures !Runs.Next(valid, w, r).s.reading
  {
    hide Below, Handle, ReceiveSpec, StoreSpec, Db.UndoTimes;
  }

  lemma QueueHeld(q: Exporter.Queue, e: Exporter.Step, writes: nat)
    requires Exporter.Sound(q) && Exporter.Braked(q) && q.slowdown && q.lwm <= q.hwm
    requires Exporter.Enabled(q, e) && writes < |q.queue| - q.lwm + 2
    requires e == Exporter.Written(true) ==> 0 < writes
    ensures var q' := Exporter.Next(q, e);
            && q'.slowdown && q'.lwm == q.lwm
            && writes - (if e == Exporter.Written(true) then 1 else 0) < |q'.queue| - q'.lwm + 2
  {
    hide Exporter.LowMark;
  }

  lemma StepHeld(valid: Bytes -> bool, j: Joint, step: Step, hwm: nat, writes: nat)
    requires Held(j, hwm, writes) && 2 <= Exporter.LowMark(hwm) && Enabled(j, step)
    requires !(step.OfReceiver? && step.r.Start?) && (IsWrite(step) ==> 0 < writes)
    ensures !Receives(step)
    ensures Held(Next(valid, j, step), hwm, if IsWrite(step) then writes - 1 else writes)
  {
    hide Exporter.Sound, Exporter.Braked, Exporter.LowMark, Exporter.Next, Runs.Next, Runs.Enabled;
    Exporter.MarksOrdered(hwm);
    StepInStep(valid, j, step, hwm);
    match step
    case OfReceiver(r) =>
      NotReading(valid, j.w, r);
      ReceiverSlowdown(valid, j.w, r);
    case OfExporter(e) =>
      QueueHeld(j.q, e, writes);
      SlowdownOnly(valid, j.w, Exporter.Next(j.q, e).slowdown);
  }

  lemma SlowdownOnly(valid: Bytes -> bool, w: World, pause: bool)
    ensures Runs.Next(valid, w, Slowdown(pause)) == w.(s := w.s.(slowdown := pause))
  {
  }

  lemma {:induction false} HeldReceivesNothing(valid: Bytes -> bool, j: Joint, steps: seq<Step>, hwm: nat, writes: nat)
    requires Held(j, hwm, writes) && 2 <= Exporter.LowMark(hwm)
    requires EnabledRun(valid, j, steps) && NoNewStart(steps) && CountWrites(steps) <= writes
    ensures forall i :: 0 <= i < |steps| ==> !Receives(steps[i])
    ensures Held(Run(valid, j, steps), hwm, writes - CountWrites(steps))
    decreases |steps|
  {
    hide Held, Enabled, Next, IsWrite, Receives;
    if steps != [] {
      StepHeld(valid, j, steps[0], hwm, writes);
      var left := if IsWrite(steps[0]) then writes - 1 else writes;
      HeldReceivesNothing(valid, Next(valid, j, steps[0]), steps[1..], hwm, left);
    }
  }

  /** In every run of receiver and exporter together, from any state with the receiver slowed
      down and between two messages: until as many writes have been completed as it takes to
      release it, or a new process starts, no block is received, whatever else is queued,
      acknowledged or decided. */
  lemma SlowedReceivesNothing(valid: Bytes -> bool, w0: World, hwm: nat, steps: seq<Step>, more: seq<Step>)
    requires Initial(valid, w0) && 2 <= Exporter.LowMark(hwm)
    requires EnabledRun(valid, Joint(w0, Exporter.Started(hwm)), steps)
    requires var j := Run(valid, Joint(w0, Exporter.Started(hwm)), steps);
             && j.w.s.slowdown && !j.w.s.reading && EnabledRun(valid, j, more) && NoNewStart(more)
             && CountWrites(more) < |j.q.queue| - j.q.lwm + 2
    ensures forall i :: 0 <= i < |more| ==> !Receives(more[i])
    ensures Run(valid, Run(valid, Joint(w0, Exporter.Started(hwm)), steps), more).w.s.slowdown
  {
    hide InStep, EnabledRun, Run, Exporter.LowMark, CountWrites, Receives, NoNewStart;
    var j0 := Joint(w0, Exporter.Started(hwm));
    assert InStep(j0, hwm) by { InitialInStep(valid, w0, hwm); }
    RunInStep(valid, j0, steps, hwm);
    HeldReceivesNothing(valid, Run(valid, j0, steps), more, hwm, CountWrites(more));
  }

  lemma InitialInStep(valid: Bytes -> bool, w0: World, hwm: nat)
    requires Initial(valid, w0)
    ensures InStep(Joint(w0, Exporter.Started(hwm)), hwm)
  {
    StartedInStep(hwm);
  }

  lemma QueueReleases(j: Joint, hwm: nat, n: nat)
    requires InStep(j, hwm) && 2 <= Exporter.LowMark(hwm) && j.w.s.slowdown && !j.q.broken
    requires n <= |j.q.queue| - j.q.lwm + 2
    ensures j.w.s.slowdown == j.q.slowdown
    ensures Exporter.EnabledRun(j.q, Exporter.Writes(n))
    ensures Exporter.Run(j.q, Exporter.Writes(n)).slowdown <==> n < |j.q.queue| - j.q.lwm + 2
  {
    hide Exporter.Sound, Exporter.LowMark;
    Exporter.MarksOrdered(hwm);
    Exporter.WriteMany(j.q, n);
  }
}
