/** What a run of the pipeline does, stated over every answer sequence the
    control plane could give. */
module PipelineProperties {
  import opened Wrappers
  import opened Strings
  import opened StackStatus
  import opened Pipeline

  /** Every call names the stack of the request. */
  predicate NamesStack(calls: seq<Call>, stackName: string) {
    forall k :: 0 <= k < |calls| ==> calls[k].stackName == stackName
  }

  /** `Mutations` keeps exactly the mutating calls: a call is in the result
      when it is among the calls and mutates. */
  lemma {:induction false} MutationsExactly(calls: seq<Call>)
    ensures forall c :: c in Mutations(calls) <==> c in calls && c.IsMutation()
    decreases |calls|
  {
    if |calls| > 0 {
      MutationsExactly(calls[1..]);
      assert calls == [calls[0]] + calls[1..];
    }
  }

  /** `Mutations` keeps the order of the calls: it distributes over
      concatenation. */
  lemma {:induction false} MutationsAppend(a: seq<Call>, b: seq<Call>)
    ensures Mutations(a + b) == Mutations(a) + Mutations(b)
    decreases |a|
  {
    if |a| > 0 {
      assert (a + b)[1..] == a[1..] + b;
      MutationsAppend(a[1..], b);
    } else {
      assert a + b == b;
    }
  }

  /** The same over three pieces, as a run of three phases has them. */
  lemma MutationsOfPieces(a: seq<Call>, b: seq<Call>, c: seq<Call>)
    ensures Mutations(a + b + c) == Mutations(a) + Mutations(b) + Mutations(c)
  {
    MutationsAppend(a + b, c);
    MutationsAppend(a, b);
  }

  /** Every call of a wait describes the stack. */
  lemma DescribesOnlyDescribe(stackName: string, k: nat)
    ensures forall c :: c in Describes(stackName, k) ==> c == DescribeStacks(stackName)
  {
  }

  lemma {:induction false} DescribesMutateNothing(stackName: string, k: nat)
    ensures Mutations(Describes(stackName, k)) == []
    ensures NamesStack(Describes(stackName, k), stackName)
    decreases k
  {
    if k > 0 {
      assert Describes(stackName, k)[1..] == Describes(stackName, k - 1);
      DescribesMutateNothing(stackName, k - 1);
    }
  }

  /** A wait only describes the stack. */
  lemma WaitPhaseDescribesOnly(stackName: string, remote: Remote)
    ensures var p := WaitPhase(stackName, remote);
      && p.calls == Describes(stackName, Wait(stackName, remote.describes).consumed)
      && Mutations(p.calls) == [] && NamesStack(p.calls, stackName)
      && p.rest.mutations == remote.mutations
  {
    DescribesMutateNothing(stackName, Wait(stackName, remote.describes).consumed);
  }

  /** A handler phase makes exactly its handler's call, first, and then only
      describes the stack. */
  lemma ActPhaseMutatesOnce(req: Request, handler: Handler, remote: Remote)
    ensures var p := ActPhase(req, handler, remote);
      && |p.calls| > 0 && p.calls[0] == HandlerCall(req, handler)
      && Mutations(p.calls) == [HandlerCall(req, handler)]
      && NamesStack(p.calls, req.stackName)
  {
    var call := HandlerCall(req, handler);
    var p := ActPhase(req, handler, remote);
    assert Mutations([call]) == [call];
    if |remote.mutations| > 0 && HandlerFailure(handler, remote.mutations[0]).None? {
      var w := WaitPhase(req.stackName, Remote(remote.describes, remote.mutations[1..]));
      WaitPhaseDescribesOnly(req.stackName, Remote(remote.describes, remote.mutations[1..]));
      MutationsAppend([call], w.calls);
      assert p.calls == [call] + w.calls;
    }
  }

  lemma NamesStackAppend(a: seq<Call>, b: seq<Call>, stackName: string)
    requires NamesStack(a, stackName) && NamesStack(b, stackName)
    ensures NamesStack(a + b, stackName)
  {
    forall k | 0 <= k < |a + b| ensures (a + b)[k].stackName == stackName {
      if k >= |a| { assert (a + b)[k] == b[k - |a|]; }
    }
  }

  /** The calls of a run are those of its phases, one after the other. */
  lemma RunCalls(req: Request, remote: Remote)
    ensures var p1 := WaitPhase(req.stackName, remote);
      Deploy(req, remote).calls ==
        if !p1.result.Ready? then p1.calls
        else
          var p2 := ActPhase(req, HandlerFor(p1.result.status), p1.rest);
          if p2.result.Ready? && p2.result.status == "INIT" then p1.calls + p2.calls + ActPhase(req, CreateHandler, p2.rest).calls
          else p1.calls + p2.calls
  {
  }

  /** The mutating calls of any run: none unless phase 1 returned a status;
      then the handler that status selects, and possibly one create after
      it. A run therefore makes at most two mutating calls, and every call
      it makes names the stack. */
  lemma MutationsOfRun(req: Request, remote: Remote)
    ensures var run := Deploy(req, remote);
      var p1 := WaitPhase(req.stackName, remote);
      && (!p1.result.Ready? ==> Mutations(run.calls) == [])
      && (p1.result.Ready? ==>
            var first := HandlerCall(req, HandlerFor(p1.result.status));
            Mutations(run.calls) == [first] || Mutations(run.calls) == [first, HandlerCall(req, CreateHandler)])
    ensures |Mutations(Deploy(req, remote).calls)| <= 2
    ensures NamesStack(Deploy(req, remote).calls, req.stackName)
  {
    var p1 := WaitPhase(req.stackName, remote);
    RunCalls(req, remote);
    WaitPhaseDescribesOnly(req.stackName, remote);
    if p1.result.Ready? {
      var h := HandlerFor(p1.result.status);
      var p2 := ActPhase(req, h, p1.rest);
      var p3 := ActPhase(req, CreateHandler, p2.rest);
      ActPhaseMutatesOnce(req, h, p1.rest);
      ActPhaseMutatesOnce(req, CreateHandler, p2.rest);
      MutationsAppend(p1.calls, p2.calls);
      MutationsAppend(p1.calls + p2.calls, p3.calls);
      NamesStackAppend(p1.calls, p2.calls, req.stackName);
      NamesStackAppend(p1.calls + p2.calls, p3.calls, req.stackName);
    }
  }

  /** Phase 1 reads the answers up to the first one that does not ask to
      poll; that answer alone decides what happens next. */
  lemma Phase1Stops(req: Request, remote: Remote, k: nat)
    requires k < |remote.describes|
    requires forall j :: 0 <= j < k ==> Observe(req.stackName, remote.describes[j]).Poll?
    requires !Observe(req.stackName, remote.describes[k]).Poll?
    ensures var p1 := WaitPhase(req.stackName, remote);
      && p1.calls == Describes(req.stackName, k + 1)
      && p1.result == Observe(req.stackName, remote.describes[k])
      && p1.rest == Remote(remote.describes[k + 1..], remote.mutations)
  {
    WaitStopsAtFirst(req.stackName, remote.describes, k);
  }

  /** A handler phase whose call was answered without a passed-on error
      reads the answers up to the first one that does not ask to poll. */
  lemma ActPhaseStops(req: Request, handler: Handler, remote: Remote, k: nat)
    requires |remote.mutations| > 0 && HandlerFailure(handler, remote.mutations[0]).None?
    requires k < |remote.describes|
    requires forall j :: 0 <= j < k ==> Observe(req.stackName, remote.describes[j]).Poll?
    requires !Observe(req.stackName, remote.describes[k]).Poll?
    ensures var p := ActPhase(req, handler, remote);
      && p.calls == [HandlerCall(req, handler)] + Describes(req.stackName, k + 1)
      && p.result == Observe(req.stackName, remote.describes[k])
      && p.rest == Remote(remote.describes[k + 1..], remote.mutations[1..])
  {
    var after := Remote(remote.describes, remote.mutations[1..]);
    assert WaitPhase(req.stackName, after) == Phase(Describes(req.stackName, k + 1), Observe(req.stackName, remote.describes[k]), Remote(remote.describes[k + 1..], remote.mutations[1..])) by {
      Phase1Stops(req, after, k);
    }
  }

  /** A stack in a `_FAILED` state ends the run at phase 1, with the fixed
      message, after describing it and without any mutating call. */
  lemma FailedStatusStopsRun(req: Request, remote: Remote, k: nat)
    requires k < |remote.describes|
    requires forall j :: 0 <= j < k ==> Observe(req.stackName, remote.describes[j]).Poll?
    requires remote.describes[k].Described? && FailedPattern(remote.describes[k].status)
    ensures Deploy(req, remote) ==
      Run(Describes(req.stackName, k + 1), Failed(Failure(None, InFailedStateMessage(req.stackName, remote.describes[k].status))))
    ensures Mutations(Deploy(req, remote).calls) == []
  {
    Phase1Stops(req, remote, k);
    DescribesMutateNothing(req.stackName, k + 1);
  }

  /** A describe error other than "does not exist" ends the run at phase 1
      with that error, and no mutating call. */
  lemma DescribeErrorStopsRun(req: Request, remote: Remote, k: nat)
    requires k < |remote.describes|
    requires forall j :: 0 <= j < k ==> Observe(req.stackName, remote.describes[j]).Poll?
    requires remote.describes[k].DescribeError? && !Contains(remote.describes[k].message, NotFoundText)
    ensures Deploy(req, remote) ==
      Run(Describes(req.stackName, k + 1), Failed(Failure(None, remote.describes[k].message)))
  {
    Phase1Stops(req, remote, k);
  }

  /** The dispatch table: `INIT` selects the create handler, which sends
      the request's name, capabilities, parameters and template;
      `ROLLBACK_COMPLETE` selects the delete handler, which sends the name
      only; every other status, `DEFAULT` included, selects the update
      handler, which sends the same fields as a create. The lemma spells
      the table out in status literals and request fields; the run-level
      consequence is `FirstMutationByStatus`. */
  lemma DispatchTable(req: Request, status: string)
    ensures HandlerCall(req, HandlerFor(status)) ==
      if status == "INIT" then CreateStack(req.stackName, req.capabilities, req.parameters, req.templateBody)
      else if status == "ROLLBACK_COMPLETE" then DeleteStack(req.stackName)
      else UpdateStack(req.stackName, req.capabilities, req.parameters, req.templateBody)
  {
  }

  /** The calls of a run that got past phase 1: the phase-1 describes, then
      the handler phase, then possibly a third phase. */
  lemma RunCallsAfterPhase1(req: Request, remote: Remote)
    requires WaitPhase(req.stackName, remote).result.Ready?
    ensures var p1 := WaitPhase(req.stackName, remote);
      var p2 := ActPhase(req, HandlerFor(p1.result.status), p1.rest);
      var run := Deploy(req, remote);
      |run.calls| > |p1.calls| && run.calls[|p1.calls|] == p2.calls[0]
  {
    var p1 := WaitPhase(req.stackName, remote);
    var p2 := ActPhase(req, HandlerFor(p1.result.status), p1.rest);
    ActPhaseMutatesOnce(req, HandlerFor(p1.result.status), p1.rest);
    var tail := if p2.result.Ready? && p2.result.status == "INIT" then ActPhase(req, CreateHandler, p2.rest).calls else [];
    assert Deploy(req, remote).calls == p1.calls + p2.calls + tail;
    assert (p1.calls + p2.calls + tail)[|p1.calls|] == p2.calls[0];
  }

  /** Dispatch on the phase-1 status: the first mutating call of the run is
      the handler call the status selects, made right after the phase-1
      describes. */
  lemma FirstMutationByStatus(req: Request, remote: Remote)
    requires WaitPhase(req.stackName, remote).result.Ready?
    ensures var p1 := WaitPhase(req.stackName, remote);
      var s := p1.result.status;
      var run := Deploy(req, remote);
      && |run.calls| > |p1.calls|
      && |Mutations(run.calls)| > 0
      && run.calls[|p1.calls|] == Mutations(run.calls)[0]
      && Mutations(run.calls)[0] ==
           if s == "INIT" then CreateStack(req.stackName, req.capabilities, req.parameters, req.templateBody)
           else if s == "ROLLBACK_COMPLETE" then DeleteStack(req.stackName)
           else UpdateStack(req.stackName, req.capabilities, req.parameters, req.templateBody)
  {
    var p1 := WaitPhase(req.stackName, remote);
    RunCallsAfterPhase1(req, remote);
    MutationsOfRun(req, remote);
    ActPhaseMutatesOnce(req, HandlerFor(p1.result.status), p1.rest);
    DispatchTable(req, p1.result.status);
  }

  /** The update handler's "no updates" error is taken as acceptance: the
      run goes on exactly as if the update had been accepted. */
  lemma NoUpdatesIsAccepted(req: Request, describes: seq<DescribeResponse>, later: seq<MutationResult>)
    requires Wait(req.stackName, describes).observation.Ready?
    requires HandlerFor(Wait(req.stackName, describes).observation.status) == UpdateHandler
    ensures Deploy(req, Remote(describes, [Rejected(NoUpdatesMessage)] + later))
         == Deploy(req, Remote(describes, [Accepted] + later))
  {
    assert ([Rejected(NoUpdatesMessage)] + later)[1..] == later;
    assert ([Accepted] + later)[1..] == later;
  }

  /** Any other error of the phase-1 mutating call ends the run with that
      error, right after the call. */
  lemma MutationErrorStopsRun(req: Request, describes: seq<DescribeResponse>, message: string, later: seq<MutationResult>)
    requires Wait(req.stackName, describes).observation.Ready?
    requires var h := HandlerFor(Wait(req.stackName, describes).observation.status);
      h != UpdateHandler || message != NoUpdatesMessage
    ensures var w := Wait(req.stackName, describes);
      Deploy(req, Remote(describes, [Rejected(message)] + later))
        == Run(Describes(req.stackName, w.consumed) + [HandlerCall(req, HandlerFor(w.observation.status))],
               Failed(Failure(None, message)))
  {
  }

  /** The decision after phase 2: `UPDATE_COMPLETE` and `CREATE_COMPLETE`
      are final; `INIT` makes one create and reports whatever phase 3
      returns, unchecked; any other status fails with that status. */
  lemma Phase2Decision(req: Request, remote: Remote)
    requires var p1 := WaitPhase(req.stackName, remote);
      p1.result.Ready? && ActPhase(req, HandlerFor(p1.result.status), p1.rest).result.Ready?
    ensures var p1 := WaitPhase(req.stackName, remote);
      var p2 := ActPhase(req, HandlerFor(p1.result.status), p1.rest);
      var s2 := p2.result.status;
      var run := Deploy(req, remote);
      var first := HandlerCall(req, HandlerFor(p1.result.status));
      && ((s2 == "UPDATE_COMPLETE" || s2 == "CREATE_COMPLETE") ==>
            run.outcome == Final(s2) && Mutations(run.calls) == [first])
      && (s2 == "INIT" ==>
            var p3 := ActPhase(req, CreateHandler, p2.rest);
            && Mutations(run.calls) == [first, CreateStack(req.stackName, req.capabilities, req.parameters, req.templateBody)]
            && (p3.result.Ready? ==> run.outcome == Final(p3.result.status)))
      && (s2 != "UPDATE_COMPLETE" && s2 != "CREATE_COMPLETE" && s2 != "INIT" ==>
            run.outcome == Failed(Failure(Some(s2), DeploymentFailedMessage(req.stackName)))
            && Mutations(run.calls) == [first])
  {
    var p1 := WaitPhase(req.stackName, remote);
    var h := HandlerFor(p1.result.status);
    var p2 := ActPhase(req, h, p1.rest);
    WaitPhaseDescribesOnly(req.stackName, remote);
    ActPhaseMutatesOnce(req, h, p1.rest);
    MutationsAppend(p1.calls, p2.calls);
    if p2.result.status == "INIT" {
      ActPhaseMutatesOnce(req, CreateHandler, p2.rest);
      MutationsAppend(p1.calls + p2.calls, ActPhase(req, CreateHandler, p2.rest).calls);
    }
  }

  /** A handler phase fails only through its call or through its wait: the
      handler passes on the call's error, or the call was accepted and the
      wait that follows failed. */
  lemma ActPhaseFailureCause(req: Request, handler: Handler, remote: Remote)
    ensures var p := ActPhase(req, handler, remote);
      p.result.Fatal? ==>
        && |remote.mutations| > 0
        && (HandlerFailure(handler, remote.mutations[0]) == Some(p.result.failure)
            || (HandlerFailure(handler, remote.mutations[0]).None?
                && Wait(req.stackName, remote.describes).observation == p.result))
  {
  }

  /** A failure seen in phase 2 is never retried: a failed handler call or
      a failed wait ends the run with that failure, after the handler call
      alone among the mutating calls. */
  lemma Phase2FailureStopsRun(req: Request, remote: Remote)
    requires WaitPhase(req.stackName, remote).result.Ready?
    ensures var p1 := WaitPhase(req.stackName, remote);
      var p2 := ActPhase(req, HandlerFor(p1.result.status), p1.rest);
      var run := Deploy(req, remote);
      p2.result.Fatal? ==>
        && run == Run(p1.calls + p2.calls, Failed(p2.result.failure))
        && Mutations(run.calls) == [HandlerCall(req, HandlerFor(p1.result.status))]
  {
    var p1 := WaitPhase(req.stackName, remote);
    var h := HandlerFor(p1.result.status);
    var p2 := ActPhase(req, h, p1.rest);
    if p2.result.Fatal? {
      WaitPhaseDescribesOnly(req.stackName, remote);
      ActPhaseMutatesOnce(req, h, p1.rest);
      MutationsAppend(p1.calls, p2.calls);
    }
  }

  /** A failure seen in phase 3 is never retried either: a failed create or
      a failed wait after it ends the run with that failure. */
  lemma Phase3FailureStopsRun(req: Request, remote: Remote, s1: string)
    requires WaitPhase(req.stackName, remote).result == Ready(s1)
    requires ActPhase(req, HandlerFor(s1), WaitPhase(req.stackName, remote).rest).result == Ready("INIT")
    ensures var p1 := WaitPhase(req.stackName, remote);
      var p2 := ActPhase(req, HandlerFor(s1), p1.rest);
      var p3 := ActPhase(req, CreateHandler, p2.rest);
      var run := Deploy(req, remote);
      p3.result.Fatal? ==>
        && run == Run(p1.calls + p2.calls + p3.calls, Failed(p3.result.failure))
        && Mutations(run.calls) == [HandlerCall(req, HandlerFor(s1)), HandlerCall(req, CreateHandler)]
  {
    var p1 := WaitPhase(req.stackName, remote);
    var p2 := ActPhase(req, HandlerFor(s1), p1.rest);
    var p3 := ActPhase(req, CreateHandler, p2.rest);
    if p3.result.Fatal? {
      assert Deploy(req, remote) == Run(p1.calls + p2.calls + p3.calls, Failed(p3.result.failure));
      WaitPhaseDescribesOnly(req.stackName, remote);
      ActPhaseMutatesOnce(req, HandlerFor(s1), p1.rest);
      ActPhaseMutatesOnce(req, CreateHandler, p2.rest);
      MutationsOfPieces(p1.calls, p2.calls, p3.calls);
    }
  }


  // ---------------------------------------------------------------------
  // A run reads its answers in order and stops

  lemma WaitPhaseExtend(stackName: string, remote: Remote, more: Remote)
    requires !WaitPhase(stackName, remote).result.Poll?
    ensures var p := WaitPhase(stackName, remote);
      WaitPhase(stackName, Remote(remote.describes + more.describes, remote.mutations + more.mutations))
        == Phase(p.calls, p.result, Remote(p.rest.describes + more.describes, p.rest.mutations + more.mutations))
  {
    var ds := remote.describes + more.describes;
    var w := Wait(stackName, remote.describes);
    assert Wait(stackName, ds) == w by {
      WaitExtend(stackName, remote.describes, more.describes);
    }
    assert ds[w.consumed..] == remote.describes[w.consumed..] + more.describes;
  }

  lemma ActPhaseExtend(req: Request, handler: Handler, remote: Remote, more: Remote)
    requires !ActPhase(req, handler, remote).result.Poll?
    ensures var p := ActPhase(req, handler, remote);
      ActPhase(req, handler, Remote(remote.describes + more.describes, remote.mutations + more.mutations))
        == Phase(p.calls, p.result, Remote(p.rest.describes + more.describes, p.rest.mutations + more.mutations))
  {
    var ms := remote.mutations + more.mutations;
    assert ms[0] == remote.mutations[0];
    assert ms[1..] == remote.mutations[1..] + more.mutations;
    if HandlerFailure(handler, remote.mutations[0]).None? {
      WaitPhaseExtend(req.stackName, Remote(remote.describes, remote.mutations[1..]), more);
    }
  }

  /** Answers beyond those a finished run used change nothing about it: the
      model's bound on polling is only the length of the answer sequences. */
  lemma DeployExtend(req: Request, remote: Remote, more: Remote)
    requires !Deploy(req, remote).outcome.Pending?
    ensures Deploy(req, Remote(remote.describes + more.describes, remote.mutations + more.mutations)) == Deploy(req, remote)
  {
    var p1 := WaitPhase(req.stackName, remote);
    WaitPhaseExtend(req.stackName, remote, more);
    if p1.result.Ready? {
      var h := HandlerFor(p1.result.status);
      var p2 := ActPhase(req, h, p1.rest);
      ActPhaseExtend(req, h, p1.rest, more);
      if p2.result.Ready? && p2.result.status == "INIT" {
        ActPhaseExtend(req, CreateHandler, p2.rest, more);
      }
    }
  }
}
