/** Execute and ExecuteWithTimeout under every interleaving (executor.go): workers, a counting semaphore,
    one-slot channels, callers and timers as one step system. */
module Concurrency {
  import opened Skills
  import opened Pipeline

  /** Where a worker goroutine stands. Waiting is blocked on, or about to try, the semaphore send; Leaving
      is the deferred receive; Sending is the send of the outcome to its caller. */
  datatype Pc = Entering | Waiting | Pre(i: nat) | Dispatch | Post(j: nat) | Leaving | Sending | Done

  /** admission is the refusal of an inactive skill; None lets the worker in. */
  datatype Worker = Worker(task: Task, admission: Option<SkillError>, pc: Pc, report: Report, calls: seq<Call>)

  datatype Caller =
    | Pending
    | GotResult(report: Report)
    | GotError(error: SkillError)
    | GaveUp(report: Report, error: SkillError)

  /** One execution: its worker, the two one-slot channels, the timer (absent for a plain Execute), and the
      caller selecting over them. */
  datatype Cell = Cell(worker: Worker, results: seq<Report>, errors: seq<SkillError>,
                       timed: bool, fired: bool, caller: Caller)

  datatype System = System(capacity: nat, tokens: nat, cells: seq<Cell>)

  datatype Action = Work(i: nat) | Fire(i: nat) | TakeResult(i: nat) | TakeError(i: nat) | GiveUp(i: nat)

  const SLOT := 1

  // ---------- Steps ----------

  predicate CanWork(c: Cell, tokens: nat, capacity: nat) {
    match c.worker.pc
    case Waiting => tokens < capacity
    case Leaving => tokens > 0
    case Sending => if c.worker.admission.Some? then |c.errors| < SLOT else |c.results| < SLOT
    case Done => false
    case _ => true
  }

  function StepWorker(w: Worker): Worker {
    match w.pc
    case Entering => w.(pc := if w.admission.Some? then Sending else Waiting)
    case Waiting => w.(pc := Pre(0), report := STARTED)
    case Pre(i) =>
      if i >= |w.task.pre| then w.(pc := Dispatch)
      else
        var called := w.(calls := w.calls + [PreHook(i)]);
        if w.task.pre[i].None? then called.(pc := Pre(i + 1))
        else
          var m := w.task.pre[i].value;
          called.(pc := Leaving, report := w.report.(status := Failed, error := Some(PRE_HOOK_ERROR + m),
                                                     logs := w.report.logs + [PreHookFailed(i, m)]))
    case Dispatch =>
      if w.task.handler.None? then
        w.(pc := Leaving, report := w.report.(status := Failed, error := Some(NO_HANDLER_ERROR),
                                              logs := w.report.logs + [NoHandler]))
      else w.(pc := Post(0), calls := w.calls + [Handler], report := AfterHandler(w.task.handler.value))
    case Post(j) =>
      if j >= |w.task.post| then w.(pc := Leaving)
      else
        var called := w.(pc := Post(j + 1), calls := w.calls + [PostHook(j)]);
        if w.task.post[j].Some?
        then called.(report := w.report.(logs := w.report.logs + [PostHookFailed(j, w.task.post[j].value)]))
        else called
    case Leaving => w.(pc := Sending)
    case Sending => w.(pc := Done)
    case Done => w
  }

  function StepCell(c: Cell): Cell {
    var moved := c.(worker := StepWorker(c.worker));
    if !c.worker.pc.Sending? then moved
    else if c.worker.admission.Some? then moved.(errors := c.errors + [c.worker.admission.value])
    else moved.(results := c.results + [c.worker.report])
  }

  predicate CellEnabled(c: Cell, a: Action, tokens: nat, capacity: nat) {
    match a
    case Work(_) => CanWork(c, tokens, capacity)
    case Fire(_) => c.timed && !c.fired
    case TakeResult(_) => c.caller.Pending? && c.results != []
    case TakeError(_) => c.caller.Pending? && c.errors != []
    case GiveUp(_) => c.caller.Pending? && c.fired
  }

  function NextCell(c: Cell, a: Action): Cell
    requires a.TakeResult? ==> c.results != []
    requires a.TakeError? ==> c.errors != []
  {
    match a
    case Work(_) => StepCell(c)
    case Fire(_) => c.(fired := true)
    case TakeResult(_) => c.(results := c.results[1..], caller := GotResult(c.results[0]))
    case TakeError(_) => c.(errors := c.errors[1..], caller := GotError(c.errors[0]))
    case GiveUp(_) => c.(caller := GaveUp(TIMED_OUT, SkillTimeout))
  }

  predicate Enabled(s: System, a: Action) {
    a.i < |s.cells| && CellEnabled(s.cells[a.i], a, s.tokens, s.capacity)
  }

  function Apply(s: System, a: Action): System
    requires Enabled(s, a)
  {
    var c := s.cells[a.i];
    var tokens := if a.Work? && c.worker.pc.Waiting? then s.tokens + 1
                  else if a.Work? && c.worker.pc.Leaving? then s.tokens - 1
                  else s.tokens;
    System(s.capacity, tokens, s.cells[a.i := NextCell(c, a)])
  }

  // ---------- The invariant ----------

  function Holds(c: Cell): nat {
    if c.worker.pc.Pre? || c.worker.pc.Dispatch? || c.worker.pc.Post? || c.worker.pc.Leaving? then 1 else 0
  }

  /** What a worker has done so far, at each point of its program. */
  predicate WorkerOk(w: Worker) {
    match w.pc
    case Entering => w.calls == []
    case Waiting => w.admission.None? && w.calls == []
    case Pre(i) =>
      w.admission.None? && i <= |w.task.pre| && AllPass(w.task.pre, i) && w.calls == PreCalls(i) && w.report == STARTED
    case Dispatch =>
      w.admission.None? && AllPass(w.task.pre, |w.task.pre|) && w.calls == PreCalls(|w.task.pre|) && w.report == STARTED
    case Post(j) =>
      && w.admission.None? && HandlerRuns(w.task) && j <= |w.task.post|
      && w.calls == PreCalls(|w.task.pre|) + [Handler] + PostCalls(j)
      && w.report == (var r := AfterHandler(w.task.handler.value); r.(logs := r.logs + PostLogs(w.task.post, j)))
    case Leaving => w.admission.None? && Finished(w)
    case Sending => if w.admission.None? then Finished(w) else w.calls == []
    case Done => if w.admission.None? then Finished(w) else w.calls == []
  }

  /** Concurrency changes nothing: a worker does and reports what the sequential execution does. */
  predicate Finished(w: Worker) {
    w.calls == CallsOf(w.task) && w.report == Outcome(w.task)
  }

  /** The channels and the caller: at most one outcome is in flight or delivered, and it is the right one. */
  predicate DeliveryOk(c: Cell) {
    var w := c.worker;
    && (c.caller.GaveUp? ==> c.timed && c.fired && c.caller == GaveUp(TIMED_OUT, SkillTimeout))
    && (c.caller.GotResult? ==>
          w.pc.Done? && w.admission.None? && c.caller.report == Outcome(w.task) && c.results == [])
    && (c.caller.GotError? ==> w.pc.Done? && w.admission == Some(c.caller.error) && c.errors == [])
    && (!w.pc.Done? ==> c.results == [] && c.errors == [])
    && (w.pc.Done? && w.admission.None? ==> c.errors == [] && (!c.caller.GotResult? ==> c.results == [Outcome(w.task)]))
    && (w.pc.Done? && w.admission.Some? ==>
          c.results == [] && (!c.caller.GotError? ==> c.errors == [w.admission.value]))
  }

  predicate CellOk(c: Cell) {
    WorkerOk(c.worker) && DeliveryOk(c) && (c.fired ==> c.timed)
  }

  function Total(f: Cell -> nat, cells: seq<Cell>): nat {
    if cells == [] then 0 else f(cells[0]) + Total(f, cells[1..])
  }

  /** Workers past the acquire are exactly the tokens in the channel, never more than its capacity. */
  predicate Inv(s: System) {
    && s.tokens == Total(Holds, s.cells) <= s.capacity
    && (forall i :: 0 <= i < |s.cells| ==> CellOk(s.cells[i]))
  }

  lemma {:induction false} TotalUpdate(f: Cell -> nat, cells: seq<Cell>, i: nat, c: Cell)
    requires i < |cells|
    ensures Total(f, cells[i := c]) + f(cells[i]) == Total(f, cells) + f(c)
    decreases |cells|
  {
    var changed := cells[i := c];
    if i == 0 {
      assert changed[1..] == cells[1..];
    } else {
      assert changed[1..] == cells[1..][i - 1 := c];
      TotalUpdate(f, cells[1..], i - 1, c);
    }
  }

  lemma {:induction false} TotalWitness(f: Cell -> nat, cells: seq<Cell>) returns (i: nat)
    requires Total(f, cells) > 0
    ensures i < |cells| && f(cells[i]) > 0
    decreases |cells|
  {
    if f(cells[0]) > 0 {
      i := 0;
    } else {
      var j := TotalWitness(f, cells[1..]);
      i := j + 1;
    }
  }

  lemma {:induction false} TotalZero(f: Cell -> nat, cells: seq<Cell>)
    requires forall i :: 0 <= i < |cells| ==> f(cells[i]) == 0
    ensures Total(f, cells) == 0
    decreases |cells|
  {
    if cells != [] {
      TotalZero(f, cells[1..]);
    }
  }

  /** The starting state: nobody has begun, the semaphore is empty. */
  predicate Initial(s: System) {
    s.tokens == 0 &&
    forall i :: 0 <= i < |s.cells| ==>
      var c := s.cells[i];
      && c.worker.pc.Entering? && c.worker.calls == []
      && c.results == [] && c.errors == [] && !c.fired && c.caller.Pending?
  }

  lemma InitialInv(s: System)
    requires Initial(s)
    ensures Inv(s)
  {
    TotalZero(Holds, s.cells);
  }

  lemma StepWorkerOk(w: Worker)
    requires WorkerOk(w)
    ensures WorkerOk(StepWorker(w))
  {
    match w.pc
    case Pre(_) => PreStepOk(w);
    case Dispatch => DispatchOk(w);
    case Post(_) => PostStepOk(w);
    case _ =>
  }

  lemma PreStepOk(w: Worker)
    requires WorkerOk(w) && w.pc.Pre?
    ensures WorkerOk(StepWorker(w))
  {
    var i := w.pc.i;
    if i < |w.task.pre| {
      if w.task.pre[i].Some? {
        PassingIs(w.task.pre, i);
      }
      assert PreCalls(i) + [PreHook(i)] == PreCalls(i + 1);
    }
  }

  lemma DispatchOk(w: Worker)
    requires WorkerOk(w) && w.pc.Dispatch?
    ensures WorkerOk(StepWorker(w))
  {
    PassingIs(w.task.pre, |w.task.pre|);
    if w.task.handler.Some? {
      var r := AfterHandler(w.task.handler.value);
      assert r.logs + PostLogs(w.task.post, 0) == r.logs;
      assert PreCalls(|w.task.pre|) + [Handler] + PostCalls(0) == PreCalls(|w.task.pre|) + [Handler];
    }
  }

  lemma PostStepOk(w: Worker)
    requires WorkerOk(w) && w.pc.Post?
    ensures WorkerOk(StepWorker(w))
  {
    PassingIs(w.task.pre, |w.task.pre|);
    if w.pc.j < |w.task.post| {
      assert PostCalls(w.pc.j) + [PostHook(w.pc.j)] == PostCalls(w.pc.j + 1);
    }
  }

  lemma WorkDeliveryOk(c: Cell, tokens: nat, capacity: nat)
    requires CellOk(c) && CanWork(c, tokens, capacity)
    ensures DeliveryOk(StepCell(c)) && StepCell(c).fired == c.fired && StepCell(c).timed == c.timed
  {
    assert c.results == [] && c.errors == [] && !c.caller.GotResult? && !c.caller.GotError?;
  }

  lemma StepDeliveryOk(c: Cell, a: Action, tokens: nat, capacity: nat)
    requires CellOk(c) && CellEnabled(c, a, tokens, capacity)
    ensures DeliveryOk(NextCell(c, a)) && (NextCell(c, a).fired ==> NextCell(c, a).timed)
  {
    if a.Work? {
      WorkDeliveryOk(c, tokens, capacity);
    }
  }

  lemma StepHolds(c: Cell, a: Action, tokens: nat, capacity: nat)
    requires CellEnabled(c, a, tokens, capacity)
    ensures Holds(NextCell(c, a)) == Holds(c) + (if a.Work? && c.worker.pc.Waiting? then 1 else 0)
                                              - (if a.Work? && c.worker.pc.Leaving? then 1 else 0)
  {
  }

  /** Safety: every step of every goroutine, caller and timer keeps the invariant. */
  lemma StepInv(s: System, a: Action)
    requires Inv(s) && Enabled(s, a)
    ensures Inv(Apply(s, a))
  {
    var c := s.cells[a.i];
    var d := NextCell(c, a);
    assert CellOk(c);
    StepWorkerOk(c.worker);
    StepDeliveryOk(c, a, s.tokens, s.capacity);
    assert CellOk(d);
    StepHolds(c, a, s.tokens, s.capacity);
    TotalUpdate(Holds, s.cells, a.i, d);
    var t := Apply(s, a);
    forall i | 0 <= i < |t.cells|
      ensures CellOk(t.cells[i])
    {
      assert t.cells[i] == if i == a.i then d else s.cells[i];
    }
  }

  // ---------- Runs ----------

  predicate CanRun(s: System, run: seq<Action>)
    decreases run
  {
    run == [] || (Enabled(s, run[0]) && CanRun(Apply(s, run[0]), run[1..]))
  }

  function After(s: System, run: seq<Action>): System
    requires CanRun(s, run)
    decreases run
  {
    if run == [] then s else After(Apply(s, run[0]), run[1..])
  }

  lemma {:induction false} RunInv(s: System, run: seq<Action>)
    requires Inv(s) && CanRun(s, run)
    ensures Inv(After(s, run)) && After(s, run).capacity == s.capacity && |After(s, run).cells| == |s.cells|
    decreases run
  {
    if run != [] {
      StepInv(s, run[0]);
      RunInv(Apply(s, run[0]), run[1..]);
    }
  }

  /** The work that remains: a bound on how often a worker, and its whole cell, can still move. */
  function WorkLeft(w: Worker): nat {
    var pre, post := |w.task.pre|, |w.task.post|;
    match w.pc
    case Entering => pre + post + 7
    case Waiting => pre + post + 6
    case Pre(i) => if i <= pre then pre - i + post + 5 else post + 5
    case Dispatch => post + 4
    case Post(j) => if j <= post then post - j + 3 else 3
    case Leaving => 2
    case Sending => 1
    case Done => 0
  }

  function CellLeft(c: Cell): nat {
    WorkLeft(c.worker) + (if c.fired then 0 else 1) + (if c.caller.Pending? then 1 else 0)
  }

  function Left(s: System): nat {
    Total(CellLeft, s.cells)
  }

  lemma StepLeft(c: Cell, a: Action, tokens: nat, capacity: nat)
    requires CellOk(c) && CellEnabled(c, a, tokens, capacity)
    ensures CellLeft(NextCell(c, a)) < CellLeft(c)
  {
    if a.Work? {
      WorkerLeft(c.worker);
    }
  }

  lemma WorkerLeft(w: Worker)
    requires WorkerOk(w) && !w.pc.Done?
    ensures WorkLeft(StepWorker(w)) < WorkLeft(w)
  {
  }

  lemma StepProgress(s: System, a: Action)
    requires Inv(s) && Enabled(s, a)
    ensures Left(Apply(s, a)) < Left(s)
  {
    assert CellOk(s.cells[a.i]);
    StepLeft(s.cells[a.i], a, s.tokens, s.capacity);
    TotalUpdate(CellLeft, s.cells, a.i, NextCell(s.cells[a.i], a));
  }

  /** No run is longer than the work it started with. */
  lemma {:induction false} RunBounded(s: System, run: seq<Action>)
    requires Inv(s) && CanRun(s, run)
    ensures |run| + Left(After(s, run)) <= Left(s)
    decreases run
  {
    if run != [] {
      StepProgress(s, run[0]);
      StepInv(s, run[0]);
      RunBounded(Apply(s, run[0]), run[1..]);
    }
  }

  /** The send to the caller never blocks, whether or not the caller has given up. */
  lemma SendNeverBlocks(s: System, i: nat)
    requires Inv(s) && i < |s.cells| && s.cells[i].worker.pc.Sending?
    ensures Enabled(s, Work(i))
  {
  }

  /** With room for at least one execution, a worker can move as long as one has not finished. */
  lemma SomeWorkerCanMove(s: System, i: nat) returns (j: nat)
    requires Inv(s) && s.capacity >= 1
    requires i < |s.cells| && !s.cells[i].worker.pc.Done?
    ensures Enabled(s, Work(j))
  {
    assert CellOk(s.cells[i]);
    if s.cells[i].worker.pc.Leaving? {
      HolderCounted(s, i);
    }
    if Enabled(s, Work(i)) {
      j := i;
    } else {
      assert s.cells[i].worker.pc.Waiting?;
      j := TotalWitness(Holds, s.cells);
      assert CellOk(s.cells[j]);
    }
  }

  lemma HolderCounted(s: System, i: nat)
    requires Inv(s) && i < |s.cells| && Holds(s.cells[i]) == 1
    ensures s.tokens > 0
  {
    var c := s.cells[i];
    var idle := c.(worker := c.worker.(pc := Done));
    TotalUpdate(Holds, s.cells, i, idle);
  }

  /** Nothing left to do: all workers are done, every slot is free, every caller has its answer. */
  predicate Complete(s: System) {
    s.tokens == 0 && forall i :: 0 <= i < |s.cells| ==> s.cells[i].worker.pc.Done? && !s.cells[i].caller.Pending?
  }

  predicate Answered(c: Cell) {
    match c.caller
    case Pending => false
    case GotResult(r) => c.worker.admission.None? && r == Outcome(c.worker.task)
    case GotError(e) => c.worker.admission == Some(e)
    case GaveUp(r, e) => c.timed && c.fired && r.status == Timeout && r.output.None? && e == SkillTimeout
  }

  lemma DoneIsAnswered(s: System, i: nat)
    requires Inv(s) && i < |s.cells| && s.cells[i].worker.pc.Done?
    requires !Enabled(s, TakeResult(i)) && !Enabled(s, TakeError(i))
    ensures !s.cells[i].caller.Pending?
  {
  }

  /** No deadlock: a state where no goroutine and no caller can move is a complete one. */
  lemma StuckIsComplete(s: System)
    requires Inv(s) && s.capacity >= 1
    requires forall a :: Enabled(s, a) ==> a.Fire?
    ensures Complete(s)
  {
    forall i | 0 <= i < |s.cells|
      ensures s.cells[i].worker.pc.Done? && !s.cells[i].caller.Pending?
    {
      if !s.cells[i].worker.pc.Done? {
        var j := SomeWorkerCanMove(s, i);
      }
      DoneIsAnswered(s, i);
    }
    TotalZero(Holds, s.cells);
  }

  /** The main theorem. From any set of executions on a semaphore of capacity at least one, every run stays
      within the capacity, has bounded length, and when it cannot be extended by a worker or a caller, all
      workers have finished with the sequential outcome, all slots are free, and every caller got the
      matching result or error, or gave up after its timer fired. */
  lemma EveryScheduleCompletes(s: System, run: seq<Action>)
    requires Initial(s) && s.capacity >= 1
    requires CanRun(s, run)
    ensures After(s, run).tokens <= s.capacity && |run| <= Left(s)
    ensures var t := After(s, run);
            (forall a :: Enabled(t, a) ==> a.Fire?) ==>
              Complete(t) && forall i :: 0 <= i < |t.cells| ==> Answered(t.cells[i]) && WorkerOk(t.cells[i].worker)
  {
    InitialInv(s);
    RunInv(s, run);
    RunBounded(s, run);
    var t := After(s, run);
    if forall a :: Enabled(t, a) ==> a.Fire? {
      StuckIsComplete(t);
      forall i | 0 <= i < |t.cells|
        ensures Answered(t.cells[i]) && WorkerOk(t.cells[i].worker)
      {
        assert CellOk(t.cells[i]);
      }
    }
  }

  /** A caller is answered once: what it got never changes afterwards. */
  lemma {:induction false} AnswerIsFinal(s: System, run: seq<Action>, i: nat)
    requires Inv(s) && CanRun(s, run)
    requires i < |s.cells| && !s.cells[i].caller.Pending?
    ensures i < |After(s, run).cells| && After(s, run).cells[i].caller == s.cells[i].caller
    decreases run
  {
    if run != [] {
      StepInv(s, run[0]);
      assert Apply(s, run[0]).cells[i].caller == s.cells[i].caller;
      AnswerIsFinal(Apply(s, run[0]), run[1..], i);
    }
  }

  // ---------- Who can always move ----------

  /** Only the semaphore makes a worker wait, and only while every slot is taken. */
  lemma OnlyFullSlotsBlock(s: System, i: nat)
    requires Inv(s) && i < |s.cells|
    ensures !Enabled(s, Work(i)) <==>
            s.cells[i].worker.pc.Done? || (s.cells[i].worker.pc.Waiting? && s.tokens == s.capacity)
  {
    assert CellOk(s.cells[i]);
    if s.cells[i].worker.pc.Leaving? {
      HolderCounted(s, i);
    }
  }

  lemma Prepended(s: System, a: Action, rest: seq<Action>)
    requires Enabled(s, a) && CanRun(Apply(s, a), rest)
    ensures CanRun(s, [a] + rest) && After(s, [a] + rest) == After(Apply(s, a), rest)
  {
    assert ([a] + rest)[1..] == rest;
  }

  /** What a caller that still waits can do: take the result or the error exactly when its worker has sent
      it, give up exactly when its timer has fired. When both are possible, either may happen. */
  lemma CallerChoices(s: System, i: nat)
    requires Inv(s) && i < |s.cells| && s.cells[i].caller.Pending?
    ensures var c := s.cells[i];
            && (Enabled(s, TakeResult(i)) <==> c.worker.pc.Done? && c.worker.admission.None?)
            && (Enabled(s, TakeError(i)) <==> c.worker.pc.Done? && c.worker.admission.Some?)
            && (Enabled(s, GiveUp(i)) <==> c.fired)
            && (Enabled(s, Fire(i)) <==> c.timed && !c.fired)
  {
    assert CellOk(s.cells[i]);
  }

  /** Nobody but the given cell's timer and caller has moved. */
  predicate OthersStill(s: System, t: System, i: nat)
    requires i < |s.cells|
  {
    && t.tokens == s.tokens && t.capacity == s.capacity && |t.cells| == |s.cells|
    && (forall j :: 0 <= j < |s.cells| && j != i ==> t.cells[j] == s.cells[j])
    && t.cells[i].worker == s.cells[i].worker
  }

  /** The caller holds what ExecuteWithTimeout returns when the timer wins. */
  predicate TimedOutAnswer(c: Cell) {
    && c.caller.GaveUp? && c.caller.error == SkillTimeout
    && c.caller.report.status == Timeout && c.caller.report.output.None? && c.caller.report.error.Some?
  }

  /** Once its timer has fired, a waiting caller can leave at once, whatever the workers are doing. */
  lemma FiredCallerCanLeave(s: System, i: nat)
    requires i < |s.cells| && s.cells[i].fired && s.cells[i].caller.Pending?
    ensures Enabled(s, GiveUp(i))
    ensures TimedOutAnswer(Apply(s, GiveUp(i)).cells[i]) && OthersStill(s, Apply(s, GiveUp(i)), i)
  {
  }

  /** A timeout needs no worker: from every state with a timed caller that waits, in particular from every
      initial one, a run without a single worker step ends with that caller timed out. */
  lemma TimeoutNeedsNoWorker(s: System, i: nat) returns (run: seq<Action>)
    requires i < |s.cells| && s.cells[i].timed && s.cells[i].caller.Pending?
    ensures CanRun(s, run) && forall a :: a in run ==> !a.Work?
    ensures |After(s, run).cells| == |s.cells|
    ensures TimedOutAnswer(After(s, run).cells[i]) && OthersStill(s, After(s, run), i)
  {
    var t := if s.cells[i].fired then s else Apply(s, Fire(i));
    FiredCallerCanLeave(t, i);
    Prepended(t, GiveUp(i), []);
    run := [GiveUp(i)];
    if !s.cells[i].fired {
      Prepended(s, Fire(i), run);
      run := [Fire(i)] + run;
    }
  }

  /** The other side of the race: with a free slot the worker can finish alone, and then a caller that waited
      gets the sequential result, or the refusal, even if its timer has fired meanwhile. */
  lemma {:induction false} AnswerReachable(s: System, i: nat) returns (run: seq<Action>)
    requires Inv(s) && i < |s.cells| && s.cells[i].caller.Pending?
    requires s.cells[i].worker.pc.Entering? || s.cells[i].worker.pc.Waiting? ==> s.tokens < s.capacity
    ensures CanRun(s, run) && |After(s, run).cells| == |s.cells|
    ensures var w := s.cells[i].worker;
            After(s, run).cells[i].caller ==
            if w.admission.Some? then GotError(w.admission.value) else GotResult(Outcome(w.task))
    decreases WorkLeft(s.cells[i].worker)
  {
    if s.cells[i].worker.pc.Done? {
      run := TakeAnswer(s, i);
    } else {
      OnlyFullSlotsBlock(s, i);
      StepInv(s, Work(i));
      WorksOn(s, i);
      var rest := AnswerReachable(Apply(s, Work(i)), i);
      Prepended(s, Work(i), rest);
      run := [Work(i)] + rest;
    }
  }

  lemma WorksOn(s: System, i: nat)
    requires Inv(s) && Enabled(s, Work(i))
    ensures var t, w := Apply(s, Work(i)), s.cells[i].worker;
            && |t.cells| == |s.cells| && t.cells[i].caller == s.cells[i].caller
            && t.cells[i].worker.task == w.task && t.cells[i].worker.admission == w.admission
            && WorkLeft(t.cells[i].worker) < WorkLeft(w)
            && (t.cells[i].worker.pc.Waiting? ==> w.pc.Entering? && t.tokens == s.tokens)
            && !t.cells[i].worker.pc.Entering? && t.capacity == s.capacity
  {
    assert CellOk(s.cells[i]);
    WorkerLeft(s.cells[i].worker);
  }

  lemma TakeAnswer(s: System, i: nat) returns (run: seq<Action>)
    requires Inv(s) && i < |s.cells| && s.cells[i].caller.Pending? && s.cells[i].worker.pc.Done?
    ensures CanRun(s, run) && |After(s, run).cells| == |s.cells|
    ensures var w := s.cells[i].worker;
            After(s, run).cells[i].caller ==
            if w.admission.Some? then GotError(w.admission.value) else GotResult(Outcome(w.task))
  {
    assert CellOk(s.cells[i]);
    CallerChoices(s, i);
    var a := if s.cells[i].worker.admission.Some? then TakeError(i) else TakeResult(i);
    Prepended(s, a, []);
    run := [a];
  }

  /** Slots are used together: any number of admitted workers, up to what is free, can be inside at once. */
  lemma {:induction false} SlotsShared(s: System, chosen: seq<nat>) returns (run: seq<Action>)
    requires forall k :: k in chosen ==>
      k < |s.cells| && s.cells[k].worker.pc.Entering? && s.cells[k].worker.admission.None?
    requires forall j, k :: 0 <= j < k < |chosen| ==> chosen[j] != chosen[k]
    requires s.tokens + |chosen| <= s.capacity
    ensures CanRun(s, run) && After(s, run).tokens == s.tokens + |chosen|
    ensures |After(s, run).cells| == |s.cells|
    ensures forall k :: 0 <= k < |s.cells| ==>
      After(s, run).cells[k] ==
      if k in chosen then Admitted(s.cells[k]) else s.cells[k]
    decreases |chosen|
  {
    if chosen == [] {
      run := [];
    } else {
      var k, rest := chosen[0], chosen[1..];
      assert k in chosen && forall j :: j in rest ==> j in chosen && j != k;
      var t := Acquire(s, k);
      var more := SlotsShared(t, rest);
      Prepended(Apply(s, Work(k)), Work(k), more);
      Prepended(s, Work(k), [Work(k)] + more);
      run := [Work(k)] + ([Work(k)] + more);
    }
  }

  lemma Acquire(s: System, k: nat) returns (t: System)
    requires k < |s.cells| && s.cells[k].worker.pc.Entering? && s.cells[k].worker.admission.None?
    requires s.tokens < s.capacity
    ensures Enabled(s, Work(k)) && Enabled(Apply(s, Work(k)), Work(k))
    ensures t == Apply(Apply(s, Work(k)), Work(k))
    ensures t == System(s.capacity, s.tokens + 1, s.cells[k := Admitted(s.cells[k])])
  {
    t := Apply(Apply(s, Work(k)), Work(k));
  }

  /** A cell whose worker has just passed the acquire. */
  function Admitted(c: Cell): Cell {
    c.(worker := c.worker.(pc := Pre(0), report := STARTED))
  }
}
