/** One execution as a value: what the hooks and the handler answer, and what must come of it
    (executor.go, types.go). */
module Pipeline {
  import opened Skills

  datatype Status = Pending | Running | Success | Failed | Cancelled | Timeout

  /** A handler's answer: an error, a result whose output, logs and metadata are copied, or no result. */
  datatype Reply =
    | Refuse(message: string)
    | Deliver(output: string, logs: seq<string>, metadata: map<string, string>)
    | Nothing

  datatype Log =
    | PreHookFailed(index: nat, message: string)
    | NoHandler
    | HandlerFailed(message: string)
    | HandlerSaid(text: string)
    | NilResult
    | PostHookFailed(index: nat, message: string)

  /** The visible part of a skill result; timestamps are left out. */
  datatype Report = Report(status: Status, output: Option<string>, error: Option<string>,
                           logs: seq<Log>, metadata: map<string, string>)

  datatype Call = PreHook(i: nat) | Handler | PostHook(i: nat)

  /** What one execution will meet: the answer of each hook, should it be called (None is success), and of
      the handler, should one be registered. */
  datatype Task = Task(pre: seq<Option<string>>, handler: Option<Reply>, post: seq<Option<string>>)

  const STARTED := Report(Running, None, None, [], map[])

  /** What a caller is handed when its timer fires first. */
  const TIMED_OUT := Report(Timeout, None, Some("execution timed out"), [], map[])

  const NO_HANDLER_ERROR := "no handler registered"
  const PRE_HOOK_ERROR := "pre-execution hook failed: "

  /** The first n hooks succeed. */
  predicate AllPass(answers: seq<Option<string>>, n: nat)
    requires n <= |answers|
  {
    forall i :: 0 <= i < n ==> answers[i].None?
  }

  function FirstFailure(answers: seq<Option<string>>, from: nat): (n: nat)
    requires from <= |answers| && AllPass(answers, from)
    ensures n <= |answers| && AllPass(answers, n)
    ensures n < |answers| ==> answers[n].Some?
    decreases |answers| - from
  {
    if from == |answers| || answers[from].Some? then from else FirstFailure(answers, from + 1)
  }

  /** The number of leading hooks that pass. */
  function Passing(answers: seq<Option<string>>): (n: nat)
    ensures n <= |answers| && AllPass(answers, n)
    ensures n < |answers| ==> answers[n].Some?
  {
    FirstFailure(answers, 0)
  }

  function PreCalls(n: nat): seq<Call> {
    seq(n, i requires 0 <= i < n => PreHook(i))
  }

  function PostCalls(n: nat): seq<Call> {
    seq(n, i requires 0 <= i < n => PostHook(i))
  }

  predicate HandlerRuns(t: Task) {
    AllPass(t.pre, |t.pre|) && t.handler.Some?
  }

  /** Which hooks and handler an execution calls, in order. */
  function CallsOf(t: Task): seq<Call> {
    var n := Passing(t.pre);
    if n < |t.pre| then PreCalls(n + 1)
    else if t.handler.None? then PreCalls(n)
    else PreCalls(n) + [Handler] + PostCalls(|t.post|)
  }

  /** The failures of the first n post-hooks, in index order. */
  function PostLogs(post: seq<Option<string>>, n: nat): seq<Log>
    requires n <= |post|
  {
    if n == 0 then []
    else PostLogs(post, n - 1) + (if post[n - 1].Some? then [PostHookFailed(n - 1, post[n - 1].value)] else [])
  }

  function HandlerLogs(logs: seq<string>): seq<Log> {
    seq(|logs|, i requires 0 <= i < |logs| => HandlerSaid(logs[i]))
  }

  /** The report right after the handler returned. */
  function AfterHandler(reply: Reply): Report {
    match reply
    case Refuse(m) => Report(Failed, None, Some(m), [HandlerFailed(m)], map[])
    case Deliver(output, logs, metadata) => Report(Success, Some(output), None, HandlerLogs(logs), metadata)
    case Nothing => Report(Success, None, None, [NilResult], map[])
  }

  function Outcome(t: Task): Report {
    var n := Passing(t.pre);
    if n < |t.pre| then
      Report(Failed, None, Some(PRE_HOOK_ERROR + t.pre[n].value), [PreHookFailed(n, t.pre[n].value)], map[])
    else if t.handler.None? then Report(Failed, None, Some(NO_HANDLER_ERROR), [NoHandler], map[])
    else
      var r := AfterHandler(t.handler.value);
      r.(logs := r.logs + PostLogs(t.post, |t.post|))
  }

  lemma PassingIs(answers: seq<Option<string>>, n: nat)
    requires n <= |answers| && AllPass(answers, n) && (n < |answers| ==> answers[n].Some?)
    ensures Passing(answers) == n
  {
  }

  /** The calls: pre-hooks up to and including the first failure, the handler at most once and only after all
      pre-hooks passed, every post-hook exactly when the handler ran. */
  lemma CallDiscipline(t: Task, i: nat)
    ensures PreHook(i) in CallsOf(t) <==> i < |t.pre| && AllPass(t.pre, i)
    ensures Handler in CallsOf(t) <==> HandlerRuns(t)
    ensures PostHook(i) in CallsOf(t) <==> HandlerRuns(t) && i < |t.post|
    ensures forall j, k :: 0 <= j < k < |CallsOf(t)| ==> CallBefore(CallsOf(t)[j], CallsOf(t)[k])
  {
    var n := Passing(t.pre);
    assert n < |t.pre| ==> t.pre[n].Some?;
    var pre := PreCalls(if n < |t.pre| then n + 1 else n);
    if i < |pre| {
      assert CallsOf(t)[i] == pre[i] == PreHook(i);
    }
    if HandlerRuns(t) {
      assert n == |t.pre|;
      assert CallsOf(t)[|pre|] == Handler;
      if i < |t.post| {
        assert CallsOf(t)[|pre| + 1 + i] == PostHook(i);
      }
    }
  }

  /** Strictly increasing stages, so nothing is called twice. */
  predicate CallBefore(a: Call, b: Call) {
    match (a, b)
    case (PreHook(i), PreHook(j)) => i < j
    case (PreHook(_), _) => true
    case (Handler, PostHook(_)) => true
    case (PostHook(i), PostHook(j)) => i < j
    case _ => false
  }

  predicate LogBefore(a: Log, b: Log) {
    match (a, b)
    case (PostHookFailed(i, _), PostHookFailed(j, _)) => i < j
    case (PostHookFailed(_, _), _) => false
    case _ => true
  }

  /** Exactly the failing ones among the first n post-hooks are logged ... */
  lemma {:induction false} PostLogsExact(post: seq<Option<string>>, n: nat)
    requires n <= |post|
    ensures forall l :: l in PostLogs(post, n) <==>
              l.PostHookFailed? && l.index < n && post[l.index] == Some(l.message)
  {
    if n > 0 {
      PostLogsExact(post, n - 1);
    }
  }

  /** ... in index order. */
  lemma {:induction false} PostLogsOrdered(post: seq<Option<string>>, n: nat)
    requires n <= |post|
    ensures forall j, k :: 0 <= j < k < |PostLogs(post, n)| ==> LogBefore(PostLogs(post, n)[j], PostLogs(post, n)[k])
  {
    if n > 0 {
      var front := PostLogs(post, n - 1);
      PostLogsOrdered(post, n - 1);
      PostLogsExact(post, n - 1);
      forall j | 0 <= j < |front|
        ensures front[j].PostHookFailed? && front[j].index < n - 1
      {
        assert front[j] in front;
      }
    }
  }

  /** The handler's answer as the caller sees it: output, error and metadata are passed on unchanged, its logs
      come first, and whatever follows them comes from post-hooks. */
  predicate Carried(reply: Reply, r: Report) {
    match reply
    case Refuse(m) =>
      r.output.None? && r.error == Some(m) && r.metadata == map[] && LogsLedBy([HandlerFailed(m)], r.logs)
    case Deliver(output, logs, metadata) =>
      && r.output == Some(output) && r.error.None? && r.metadata == metadata && |logs| <= |r.logs|
      && (forall i :: 0 <= i < |logs| ==> r.logs[i] == HandlerSaid(logs[i]))
      && (forall i :: |logs| <= i < |r.logs| ==> r.logs[i].PostHookFailed?)
    case Nothing => r.output.None? && r.error.None? && r.metadata == map[] && LogsLedBy([NilResult], r.logs)
  }

  predicate LogsLedBy(own: seq<Log>, logs: seq<Log>) {
    own <= logs && forall i :: |own| <= i < |logs| ==> logs[i].PostHookFailed?
  }

  lemma OutcomeCarries(t: Task)
    requires HandlerRuns(t)
    ensures Carried(t.handler.value, Outcome(t))
  {
    var own, later, logs := AfterHandler(t.handler.value).logs, PostLogs(t.post, |t.post|), Outcome(t).logs;
    PostLogsExact(t.post, |t.post|);
    assert logs == own + later;
    forall i | |own| <= i < |logs|
      ensures logs[i].PostHookFailed?
    {
      assert later[i - |own|] in later;
    }
  }

  /** The result: never left running; successful exactly when a handler was found, reached and returned no
      error; post-hook failures are logged after everything the handler logged, in index order, and never
      change the verdict. */
  lemma OutcomeDiscipline(t: Task)
    ensures Outcome(t).status == Success || Outcome(t).status == Failed
    ensures Outcome(t).status == Success <==> HandlerRuns(t) && !t.handler.value.Refuse?
    ensures Outcome(t).status == Failed <==> Outcome(t).error.Some?
    ensures HandlerRuns(t) ==> Carried(t.handler.value, Outcome(t))
    ensures !AllPass(t.pre, |t.pre|) ==>
      exists i :: 0 <= i < |t.pre| && AllPass(t.pre, i) && t.pre[i].Some? && Outcome(t).output.None?
        && Outcome(t).error == Some(PRE_HOOK_ERROR + t.pre[i].value)
        && Outcome(t).logs == [PreHookFailed(i, t.pre[i].value)] && Outcome(t).metadata == map[]
    ensures AllPass(t.pre, |t.pre|) && t.handler.None? ==>
      && Outcome(t).output.None? && Outcome(t).error == Some(NO_HANDLER_ERROR)
      && Outcome(t).logs == [NoHandler] && Outcome(t).metadata == map[]
    ensures forall j, k :: 0 <= j < k < |Outcome(t).logs| ==> LogBefore(Outcome(t).logs[j], Outcome(t).logs[k])
    ensures forall i: nat, m :: PostHookFailed(i, m) in Outcome(t).logs <==>
              HandlerRuns(t) && i < |t.post| && t.post[i] == Some(m)
  {
    assert Passing(t.pre) < |t.pre| ==> t.pre[Passing(t.pre)].Some?;
    if HandlerRuns(t) {
      PostLogsExact(t.post, |t.post|);
      PostLogsOrdered(t.post, |t.post|);
      OutcomeCarries(t);
      var own, later := AfterHandler(t.handler.value).logs, PostLogs(t.post, |t.post|);
      assert forall l :: l in own ==> !l.PostHookFailed?;
      forall j, k | 0 <= j < k < |own + later|
        ensures LogBefore((own + later)[j], (own + later)[k])
      {
        if j < |own| {
          assert own[j] in own;
        }
      }
    }
  }
}
