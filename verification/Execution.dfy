/** The executor as an object (executor.go): hook lists, handler table, one execution at a time.
    Blocking and interleaving are the subject of Concurrency. */
module Execution {
  import opened Skills
  import opened Pipeline

  /** What a hook or handler may depend on; world stands for everything outside the registry. */
  datatype ExecutionContext = ExecutionContext(executionID: string, skillID: string, world: int)

  type Hook = ExecutionContext -> Option<string>
  type HandlerFn = ExecutionContext -> Reply

  class SkillResult {
    const executionID: string
    const skillID: string
    var status: Status
    var output: Option<string>
    var error: Option<string>
    var logs: seq<Log>
    var metadata: map<string, string>

    constructor (executionID: string, skillID: string)
      ensures View() == Report(Pending, None, None, [], map[])
      ensures this.executionID == executionID && this.skillID == skillID
    {
      this.executionID, this.skillID := executionID, skillID;
      status, output, error, logs, metadata := Pending, None, None, [], map[];
    }

    function View(): Report
      reads this
    {
      Report(status, output, error, logs, metadata)
    }

    method Succeed(output: Option<string>)
      modifies this
      ensures View() == old(View()).(status := Success, output := output)
    {
      status := Success;
      this.output := output;
    }

    method Fail(message: string)
      modifies this
      ensures View() == old(View()).(status := Failed, error := Some(message))
    {
      status := Failed;
      error := Some(message);
    }

    method Cancel()
      modifies this
      ensures View() == old(View()).(status := Cancelled)
    {
      status := Cancelled;
    }

    method TimedOut()
      modifies this
      ensures View() == old(View()).(status := Timeout, error := Some("execution timed out"))
    {
      status := Timeout;
      error := Some("execution timed out");
    }

    method AddLog(log: Log)
      modifies this
      ensures View() == old(View()).(logs := old(logs) + [log])
    {
      logs := logs + [log];
    }
  }

  /** Copies the first map, then the second over it. */
  method MergeMetadata(m1: map<string, string>, m2: map<string, string>) returns (result: map<string, string>)
    ensures forall k :: k in result <==> k in m1 || k in m2
    ensures forall k :: k in result ==> result[k] == if k in m2 then m2[k] else m1[k]
  {
    result := map[];
    var left := m1.Keys;
    while left != {}
      invariant left <= m1.Keys && result.Keys == m1.Keys - left
      invariant forall k :: k in result ==> result[k] == m1[k]
    {
      var k :| k in left;
      left := left - {k};
      result := result[k := m1[k]];
    }
    left := m2.Keys;
    while left != {}
      invariant left <= m2.Keys && result.Keys == m1.Keys + (m2.Keys - left)
      invariant forall k :: k in result ==> result[k] == if k in m2 && k !in left then m2[k] else m1[k]
    {
      var k :| k in left;
      left := left - {k};
      result := result[k := m2[k]];
    }
  }

  function Answers(hooks: seq<Hook>, ctx: ExecutionContext): seq<Option<string>> {
    seq(|hooks|, i requires 0 <= i < |hooks| => hooks[i](ctx))
  }

  class SkillExecutor {
    var preExecutionHooks: seq<Hook>
    var postExecutionHooks: seq<Hook>
    var handlers: map<string, Option<HandlerFn>> // a nil handler can be registered: None
    const maxConcurrent: nat
    var tokens: nat // what the semaphore channel holds

    constructor (maxConcurrent: int)
      ensures this.maxConcurrent == (if maxConcurrent <= 0 then 10 else maxConcurrent) && this.maxConcurrent >= 1
      ensures tokens == 0 && handlers == map[] && preExecutionHooks == [] && postExecutionHooks == []
    {
      this.maxConcurrent := if maxConcurrent <= 0 then 10 else maxConcurrent;
      preExecutionHooks, postExecutionHooks, handlers, tokens := [], [], map[], 0;
    }

    method RegisterHandler(handlerType: string, handler: Option<HandlerFn>)
      modifies this`handlers
      ensures handlers == old(handlers)[handlerType := handler]
    {
      handlers := handlers[handlerType := handler];
    }

    method AddPreExecutionHook(hook: Hook)
      modifies this`preExecutionHooks
      ensures preExecutionHooks == old(preExecutionHooks) + [hook]
    {
      preExecutionHooks := preExecutionHooks + [hook];
    }

    method AddPostExecutionHook(hook: Hook)
      modifies this`postExecutionHooks
      ensures postExecutionHooks == old(postExecutionHooks) + [hook]
    {
      postExecutionHooks := postExecutionHooks + [hook];
    }

    /** The handler a definition selects: its own entry if there is one, even a nil one, else the default. */
    function GetHandler(definition: Option<Definition>): (h: Option<HandlerFn>)
      reads this`handlers
      ensures var own := definition.Some? && definition.value.handler != "" && definition.value.handler in handlers;
              && (own ==> h == handlers[definition.value.handler])
              && (!own && "default" in handlers ==> h == handlers["default"])
              && (!own && "default" !in handlers ==> h.None?)
    {
      var fallback := if "default" in handlers then handlers["default"] else None;
      if definition.None? || definition.value.handler == "" then fallback
      else if definition.value.handler in handlers then handlers[definition.value.handler]
      else fallback
    }

    /** The hooks' and handler's answers for one context. */
    function TaskOf(definition: Option<Definition>, ctx: ExecutionContext): Task
      reads this`preExecutionHooks, this`postExecutionHooks, this`handlers
    {
      var handler := GetHandler(definition);
      Task(Answers(preExecutionHooks, ctx),
           if handler.Some? then Some(handler.value(ctx)) else None,
           Answers(postExecutionHooks, ctx))
    }

    /** The first n pre-hooks accept the context. */
    predicate PreHooksPass(n: nat, ctx: ExecutionContext)
      requires n <= |preExecutionHooks|
      reads this`preExecutionHooks
    {
      forall i :: 0 <= i < n ==> preExecutionHooks[i](ctx).None?
    }

    predicate HandlerReached(definition: Option<Definition>, ctx: ExecutionContext)
      reads this`preExecutionHooks, this`handlers
    {
      PreHooksPass(|preExecutionHooks|, ctx) && GetHandler(definition).Some?
    }

    /** The calls of one execution: pre-hooks up to and including the first refusal, the handler exactly when
        it is reached, all post-hooks exactly when it was called; in this order, none twice. */
    ghost predicate ProperCalls(definition: Option<Definition>, ctx: ExecutionContext, calls: seq<Call>)
      reads this`preExecutionHooks, this`postExecutionHooks, this`handlers
    {
      && (forall i: nat :: PreHook(i) in calls <==> i < |preExecutionHooks| && PreHooksPass(i, ctx))
      && (Handler in calls <==> HandlerReached(definition, ctx))
      && (forall j: nat :: PostHook(j) in calls <==> Handler in calls && j < |postExecutionHooks|)
      && (forall j, k :: 0 <= j < k < |calls| ==> CallBefore(calls[j], calls[k]))
    }

    /** The report of one execution: the handler's own answer when it is reached, else the first refusing
        pre-hook or the missing handler; and exactly the failures of post-hooks, after the handler's logs. */
    ghost predicate ProperReport(definition: Option<Definition>, ctx: ExecutionContext, r: Report)
      reads this`preExecutionHooks, this`postExecutionHooks, this`handlers
    {
      var reached := HandlerReached(definition, ctx);
      && (r.status == Success <==> reached && !GetHandler(definition).value(ctx).Refuse?)
      && (r.status == Failed <==> r.status != Success)
      && (reached ==> Carried(GetHandler(definition).value(ctx), r))
      && (!reached ==> r.output.None? && r.metadata == map[] && |r.logs| == 1)
      && (!PreHooksPass(|preExecutionHooks|, ctx) ==> exists i :: StoppedAt(i, ctx, r))
      && (!reached && PreHooksPass(|preExecutionHooks|, ctx) ==>
            r.error == Some(NO_HANDLER_ERROR) && r.logs == [NoHandler])
      && (forall j: nat, m :: PostHookFailed(j, m) in r.logs <==>
            reached && j < |postExecutionHooks| && postExecutionHooks[j](ctx) == Some(m))
      && (forall j, k :: 0 <= j < k < |r.logs| ==> LogBefore(r.logs[j], r.logs[k]))
    }

    /** Pre-hook i is the first to refuse, and the report carries its message. */
    predicate StoppedAt(i: int, ctx: ExecutionContext, r: Report)
      reads this`preExecutionHooks
    {
      && 0 <= i < |preExecutionHooks| && PreHooksPass(i, ctx)
      && var refusal := preExecutionHooks[i](ctx);
      && refusal.Some?
      && r.error == Some(PRE_HOOK_ERROR + refusal.value) && r.logs == [PreHookFailed(i, refusal.value)]
    }

    lemma CallsAreProper(definition: Option<Definition>, ctx: ExecutionContext)
      ensures ProperCalls(definition, ctx, CallsOf(TaskOf(definition, ctx)))
    {
      var t := TaskOf(definition, ctx);
      assert HandlerRuns(t) <==> HandlerReached(definition, ctx) by {
        AllPassIff(|preExecutionHooks|, ctx);
      }
      forall i: nat
        ensures PreHook(i) in CallsOf(t) <==> i < |preExecutionHooks| && PreHooksPass(i, ctx)
        ensures PostHook(i) in CallsOf(t) <==> HandlerRuns(t) && i < |postExecutionHooks|
      {
        CallDiscipline(t, i);
        if i < |preExecutionHooks| {
          AllPassIff(i, ctx);
        }
      }
      CallDiscipline(t, 0);
    }

    lemma AllPassIff(n: nat, ctx: ExecutionContext)
      requires n <= |preExecutionHooks|
      ensures AllPass(Answers(preExecutionHooks, ctx), n) <==> PreHooksPass(n, ctx)
    {
      forall i | 0 <= i < n
        ensures Answers(preExecutionHooks, ctx)[i] == preExecutionHooks[i](ctx)
      {
      }
    }

    lemma ReportIsProper(definition: Option<Definition>, ctx: ExecutionContext)
      ensures ProperReport(definition, ctx, Outcome(TaskOf(definition, ctx)))
    {
      var t := TaskOf(definition, ctx);
      var r := Outcome(t);
      AllPassIff(|preExecutionHooks|, ctx);
      OutcomeDiscipline(t);
      if !AllPass(t.pre, |t.pre|) {
        var i :| 0 <= i < |t.pre| && AllPass(t.pre, i) && t.pre[i].Some?
          && r.error == Some(PRE_HOOK_ERROR + t.pre[i].value) && r.logs == [PreHookFailed(i, t.pre[i].value)];
        AllPassIff(i, ctx);
        assert StoppedAt(i, ctx, r);
      }
    }

    /** One execution without interference. With every slot taken it blocks at the semaphore, having changed
        nothing; otherwise it makes the proper calls and returns the proper report, which are those Pipeline
        prescribes, and the slot is free again whichever way the method returns. */
    method Execute(skill: Skill?, ctx: ExecutionContext)
      returns (blocked: bool, result: SkillResult?, err: Option<SkillError>, ghost calls: seq<Call>)
      modifies this`tokens
      ensures tokens == old(tokens)
      ensures skill == null ==> err == Some(SkillInvalid)
      ensures skill != null && !skill.IsActive() ==>
        err == Some(if skill.status == STATUS_DISABLED || !skill.enabled then SkillDisabled else SkillNotActive)
      ensures err.None? <==> skill != null && skill.IsActive()
      ensures blocked <==> err.None? && old(tokens) >= maxConcurrent
      ensures blocked || err.Some? ==> result == null && calls == []
      ensures err.None? && !blocked ==>
        && result != null && fresh(result)
        && result.executionID == ctx.executionID && result.skillID == skill.id
        && ProperCalls(skill.definition, ctx, calls) && ProperReport(skill.definition, ctx, result.View())
        && result.View() == Outcome(TaskOf(skill.definition, ctx))
        && calls == CallsOf(TaskOf(skill.definition, ctx))
    {
      blocked, result, err, calls := false, null, None, [];
      if skill == null {
        err := Some(SkillInvalid);
        return;
      }
      if !skill.IsActive() {
        if skill.status == STATUS_DISABLED || !skill.enabled {
          err := Some(SkillDisabled);
          return;
        }
        err := Some(SkillNotActive);
        return;
      }
      if tokens >= maxConcurrent {
        blocked := true;
        return;
      }
      tokens := tokens + 1;
      result, calls := Perform(skill, ctx);
      CallsAreProper(skill.definition, ctx);
      ReportIsProper(skill.definition, ctx);
      tokens := tokens - 1;
    }

    /** What ExecuteWithTimeout hands out when the timer fires first. */
    method TimeoutAnswer(skill: Skill, ctx: ExecutionContext) returns (result: SkillResult, err: SkillError)
      ensures fresh(result) && result.executionID == ctx.executionID && result.skillID == skill.id
      ensures result.View() == TIMED_OUT && err == SkillTimeout
    {
      result := new SkillResult(ctx.executionID, skill.id);
      result.status := Running;
      result.TimedOut();
      err := SkillTimeout;
    }

    /** The body between acquiring and releasing the slot. */
    method Perform(skill: Skill, ctx: ExecutionContext) returns (result: SkillResult, ghost calls: seq<Call>)
      ensures fresh(result) && result.executionID == ctx.executionID && result.skillID == skill.id
      ensures result.View() == Outcome(TaskOf(skill.definition, ctx))
      ensures calls == CallsOf(TaskOf(skill.definition, ctx))
    {
      result := new SkillResult(ctx.executionID, skill.id);
      result.status := Running;
      var failed;
      failed, calls := RunPreHooks(result, ctx);
      if failed {
        return;
      }
      PassingIs(Answers(preExecutionHooks, ctx), |preExecutionHooks|);
      var handler := GetHandler(skill.definition);
      if handler.None? {
        result.AddLog(NoHandler);
        result.Fail(NO_HANDLER_ERROR);
        return;
      }
      var reply := handler.value(ctx);
      Record(result, reply);
      ghost var later := RunPostHooks(result, ctx);
      calls := calls + [Handler] + later;
    }

    method RunPreHooks(result: SkillResult, ctx: ExecutionContext) returns (failed: bool, ghost calls: seq<Call>)
      requires result.View() == STARTED
      modifies result
      ensures var answers := Answers(preExecutionHooks, ctx);
              var n := Passing(answers);
              if n < |answers| then
                failed && calls == PreCalls(n + 1) &&
                result.View() == Report(Failed, None, Some(PRE_HOOK_ERROR + answers[n].value),
                                        [PreHookFailed(n, answers[n].value)], map[])
              else !failed && calls == PreCalls(n) && result.View() == STARTED
    {
      ghost var answers := Answers(preExecutionHooks, ctx);
      calls := [];
      for i := 0 to |preExecutionHooks|
        invariant AllPass(answers, i) && calls == PreCalls(i)
        invariant result.View() == STARTED
      {
        var failure := preExecutionHooks[i](ctx);
        assert failure == answers[i];
        calls := calls + [PreHook(i)];
        if failure.Some? {
          PassingIs(answers, i);
          result.AddLog(PreHookFailed(i, failure.value));
          result.Fail(PRE_HOOK_ERROR + failure.value);
          return true, calls;
        }
      }
      PassingIs(answers, |answers|);
      failed := false;
    }

    /** Copies a handler's answer into the result. */
    method Record(result: SkillResult, reply: Reply)
      requires result.View() == STARTED
      modifies result
      ensures result.View() == AfterHandler(reply)
    {
      match reply {
        case Refuse(message) =>
          result.Fail(message);
          result.AddLog(HandlerFailed(message));
        case Deliver(output, logs, metadata) =>
          result.Succeed(Some(output));
          result.logs := result.logs + HandlerLogs(logs);
          var merged := MergeMetadata(result.metadata, metadata);
          assert merged == metadata;
          result.metadata := merged;
        case Nothing =>
          result.Succeed(None);
          result.AddLog(NilResult);
      }
    }

    method RunPostHooks(result: SkillResult, ctx: ExecutionContext) returns (ghost calls: seq<Call>)
      modifies result
      ensures var answers := Answers(postExecutionHooks, ctx);
              && calls == PostCalls(|answers|)
              && result.View() == old(result.View()).(logs := old(result.logs) + PostLogs(answers, |answers|))
    {
      ghost var answers := Answers(postExecutionHooks, ctx);
      calls := [];
      for i := 0 to |postExecutionHooks|
        invariant calls == PostCalls(i)
        invariant result.View() == old(result.View()).(logs := old(result.logs) + PostLogs(answers, i))
      {
        var failure := postExecutionHooks[i](ctx);
        assert failure == answers[i];
        calls := calls + [PostHook(i)];
        if failure.Some? {
          result.AddLog(PostHookFailed(i, failure.value));
        }
      }
    }
  }
}
