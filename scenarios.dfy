/** Whole runs against concrete answer sequences: first deployment, recovery
    from a rolled-back creation, a stack in a failed state, and an update
    with nothing to change. */
module Scenarios {
  import opened Wrappers
  import opened Strings
  import opened StackStatus
  import opened Pipeline
  import opened PipelineProperties

  function NotFoundError(stackName: string): DescribeResponse {
    DescribeError("Stack with id " + stackName + " does not exist")
  }

  lemma NotFoundErrorIsInit(stackName: string)
    ensures Observe(stackName, NotFoundError(stackName)) == Ready("INIT")
  {
    var before := "Stack with id " + stackName + " ";
    assert NotFoundError(stackName).message == before + NotFoundText + "";
    ContainsInside(before, NotFoundText, "");
    NotFoundIsInit(stackName, NotFoundError(stackName).message);
  }

  /** A status that ends in another letter than `E` does not end in `_COMPLETE`. */
  lemma NotComplete(status: string)
    requires |status| > 0 && status[|status| - 1] != 'E'
    ensures !CompletePattern(status)
  {
  }

  /** The in-progress statuses of the scenarios. */
  predicate InProgressLiteral(status: string) {
    status == "CREATE_IN_PROGRESS" || status == "DELETE_IN_PROGRESS"
  }

  lemma InProgressWithoutF(status: string)
    requires InProgressLiteral(status)
    ensures 'F' !in status
  {
  }

  lemma InProgressLastLetter(status: string)
    requires InProgressLiteral(status)
    ensures |status| > 0 && status[|status| - 1] == 'S'
  {
  }

  lemma InProgressNotKey(status: string)
    requires InProgressLiteral(status)
    ensures status !in HandlerKeys
  {
  }

  /** A status without `F`, so without `_FAILED`, that is not a handler
      key and does not end in `E`, asks to poll. */
  lemma PollsWithoutF(stackName: string, status: string)
    requires 'F' !in status && status !in HandlerKeys
    requires |status| > 0 && status[|status| - 1] != 'E'
    ensures Observe(stackName, Described(status)) == Poll
  {
    NotFailed(status, 'F');
    NotComplete(status);
  }

  /** A status still in progress asks to poll. */
  lemma InProgressPolls(stackName: string, status: string)
    requires InProgressLiteral(status)
    ensures Observe(stackName, Described(status)) == Poll
  {
    InProgressWithoutF(status);
    InProgressLastLetter(status);
    InProgressNotKey(status);
    PollsWithoutF(stackName, status);
  }

  /** A single-line status ending in `_COMPLETE` and without `F` stops the wait. */
  lemma CompleteWithoutF(stackName: string, status: string)
    requires SingleLine(status) && EndsWith(status, "_COMPLETE") && 'F' !in status
    ensures Observe(stackName, Described(status)) == Ready(status)
  {
    NotFailed(status, 'F');
    var prefix := status[..|status| - 9];
    assert status == prefix + "_COMPLETE";
    CompleteIsReady(stackName, prefix);
  }

  /** The completed statuses of the scenarios, one literal at a time. */
  predicate CompletedLiteral(status: string) {
    status == "CREATE_COMPLETE" || status == "UPDATE_COMPLETE" || status == "ROLLBACK_COMPLETE"
  }

  lemma CompletedSingleLine(status: string)
    requires CompletedLiteral(status)
    ensures SingleLine(status)
  {
    if status == "CREATE_COMPLETE" {
      assert SingleLine(status);
    } else if status == "UPDATE_COMPLETE" {
      assert SingleLine(status);
    } else {
      assert SingleLine(status);
    }
  }

  lemma CompletedSuffix(status: string)
    requires CompletedLiteral(status)
    ensures EndsWith(status, "_COMPLETE")
  {
  }

  lemma CompletedWithoutF(status: string)
    requires CompletedLiteral(status)
    ensures 'F' !in status
  {
  }

  /** A completed status free of `F` stops the wait. */
  lemma CompletedIsReady(stackName: string, status: string)
    requires CompletedLiteral(status)
    ensures Observe(stackName, Described(status)) == Ready(status)
  {
    CompletedSingleLine(status);
    CompletedSuffix(status);
    CompletedWithoutF(status);
    CompleteWithoutF(stackName, status);
  }

  function Deployment(stackName: string): Request {
    Request(stackName, "Resources: {}", [], [])
  }

  /** A mutating call followed by `k` describes. */
  lemma {:induction false} MutationThenDescribes(call: Call, stackName: string, k: nat)
    requires call.IsMutation()
    ensures Mutations([call] + Describes(stackName, k)) == [call]
  {
    DescribesMutateNothing(stackName, k);
    MutationsAppend([call], Describes(stackName, k));
  }

  // ---------------------------------------------------------------------
  // Answer sequences taken apart at their first elements

  lemma Unfold1<T>(a: T)
    ensures [a] == [a] + []
  {
  }

  lemma Unfold2<T>(a: T, b: T)
    ensures [a, b] == [a] + [b] && [a, b] == [a] + ([b] + [])
  {
  }

  lemma Unfold3<T>(a: T, b: T, c: T)
    ensures [a, b, c] == [a] + ([b, c] + []) && [a, b, c] == [a] + ([b] + ([c] + []))
  {
  }

  lemma Unfold5<T>(a: T, b: T, c: T, d: T, e: T)
    ensures [a, b, c, d, e] == [a] + ([b, c] + [d, e]) && [d, e] == [d, e] + []
  {
  }

  // ---------------------------------------------------------------------
  // Phases that settle after one or two answers

  lemma SettlesAtFirst(stackName: string, r: DescribeResponse, rest: seq<DescribeResponse>, ms: seq<MutationResult>)
    requires !Observe(stackName, r).Poll?
    ensures WaitPhase(stackName, Remote([r] + rest, ms)) == Phase(Describes(stackName, 1), Observe(stackName, r), Remote(rest, ms))
  {
    WaitStopsAtFirst(stackName, [r] + rest, 0);
    assert ([r] + rest)[1..] == rest;
  }

  lemma ActSettlesAtFirst(req: Request, handler: Handler, r: DescribeResponse, rest: seq<DescribeResponse>, m: MutationResult, ms: seq<MutationResult>)
    requires HandlerFailure(handler, m).None?
    requires !Observe(req.stackName, r).Poll?
    ensures ActPhase(req, handler, Remote([r] + rest, [m] + ms))
      == Phase([HandlerCall(req, handler)] + Describes(req.stackName, 1), Observe(req.stackName, r), Remote(rest, ms))
  {
    assert ([m] + ms)[1..] == ms;
    SettlesAtFirst(req.stackName, r, rest, ms);
  }

  lemma ActSettlesAtSecond(req: Request, handler: Handler, r1: DescribeResponse, r2: DescribeResponse, rest: seq<DescribeResponse>, m: MutationResult, ms: seq<MutationResult>)
    requires HandlerFailure(handler, m).None?
    requires Observe(req.stackName, r1).Poll? && !Observe(req.stackName, r2).Poll?
    ensures ActPhase(req, handler, Remote([r1, r2] + rest, [m] + ms))
      == Phase([HandlerCall(req, handler)] + Describes(req.stackName, 2), Observe(req.stackName, r2), Remote(rest, ms))
  {
    var ds := [r1, r2] + rest;
    assert ds[0] == r1 && ds[1] == r2 && ds[2..] == rest;
    assert ([m] + ms)[1..] == ms;
    WaitStopsAtFirst(req.stackName, ds, 1);
  }

  // ---------------------------------------------------------------------
  // Runs put together from their phases

  /** A run whose phase 2 completed a create or an update: one mutating
      call, and that status as the final one. */
  lemma TwoPhaseRun(req: Request, remote: Remote, k1: nat, s1: string, k2: nat, final: string)
    requires final == "CREATE_COMPLETE" || final == "UPDATE_COMPLETE"
    requires var p1 := WaitPhase(req.stackName, remote);
      && p1.calls == Describes(req.stackName, k1) && p1.result == Ready(s1)
      && var h := HandlerFor(s1);
         var p2 := ActPhase(req, h, p1.rest);
         p2.calls == [HandlerCall(req, h)] + Describes(req.stackName, k2) && p2.result == Ready(final)
    ensures var run := Deploy(req, remote);
      && Mutations(run.calls) == [HandlerCall(req, HandlerFor(s1))]
      && run.outcome == Final(final)
  {
    var p1 := WaitPhase(req.stackName, remote);
    var h := HandlerFor(p1.result.status);
    var p2 := ActPhase(req, h, p1.rest);
    assert Deploy(req, remote) == Run(p1.calls + p2.calls, Final(final));
    DescribesMutateNothing(req.stackName, k1);
    MutationThenDescribes(HandlerCall(req, h), req.stackName, k2);
    MutationsAppend(p1.calls, p2.calls);
  }

  /** A run whose phase 2 found the stack gone: a second, create call, and
      the phase-3 status as the final one, whatever it is. */
  lemma ThreePhaseRun(req: Request, remote: Remote, k1: nat, s1: string, k2: nat, k3: nat, final: string)
    requires var p1 := WaitPhase(req.stackName, remote);
      && p1.calls == Describes(req.stackName, k1) && p1.result == Ready(s1)
      && var h := HandlerFor(s1);
         var p2 := ActPhase(req, h, p1.rest);
         && p2.calls == [HandlerCall(req, h)] + Describes(req.stackName, k2) && p2.result == Ready("INIT")
         && var p3 := ActPhase(req, CreateHandler, p2.rest);
            p3.calls == [HandlerCall(req, CreateHandler)] + Describes(req.stackName, k3) && p3.result == Ready(final)
    ensures var run := Deploy(req, remote);
      && Mutations(run.calls) == [HandlerCall(req, HandlerFor(s1)), HandlerCall(req, CreateHandler)]
      && run.outcome == Final(final)
  {
    var p1 := WaitPhase(req.stackName, remote);
    var h := HandlerFor(p1.result.status);
    var p2 := ActPhase(req, h, p1.rest);
    var p3 := ActPhase(req, CreateHandler, p2.rest);
    assert Deploy(req, remote) == Run(p1.calls + p2.calls + p3.calls, Final(final));
    DescribesMutateNothing(req.stackName, k1);
    MutationThenDescribes(HandlerCall(req, h), req.stackName, k2);
    MutationThenDescribes(HandlerCall(req, CreateHandler), req.stackName, k3);
    MutationsOfPieces(p1.calls, p2.calls, p3.calls);
  }

  // ---------------------------------------------------------------------
  // Runs over any statuses the wait classifies as given

  /** The stack is missing, then being created, then created. */
  lemma CreateFromNothing(req: Request, notFound: string, inProgress: string, complete: string)
    requires Observe(req.stackName, DescribeError(notFound)) == Ready("INIT")
    requires Observe(req.stackName, Described(inProgress)).Poll?
    requires Observe(req.stackName, Described(complete)) == Ready(complete)
    requires complete == "CREATE_COMPLETE" || complete == "UPDATE_COMPLETE"
    ensures var run := Deploy(req, Remote([DescribeError(notFound), Described(inProgress), Described(complete)], [Accepted]));
      && Mutations(run.calls) == [HandlerCall(req, CreateHandler)]
      && run.outcome == Final(complete)
  {
    var ds := [DescribeError(notFound), Described(inProgress), Described(complete)];
    Unfold3(DescribeError(notFound), Described(inProgress), Described(complete));
    Unfold1(Accepted);
    SettlesAtFirst(req.stackName, DescribeError(notFound), [Described(inProgress), Described(complete)] + [], [Accepted]);
    ActSettlesAtSecond(req, CreateHandler, Described(inProgress), Described(complete), [], Accepted, []);
    TwoPhaseRun(req, Remote(ds, [Accepted]), 1, "INIT", 2, complete);
  }

  /** The stack is rolled back, then being deleted, then missing, then
      being created, then settled on `complete`. */
  lemma DeleteThenCreate(req: Request, rolledBack: string, deleting: string, notFound: string, creating: string, complete: string)
    requires Observe(req.stackName, Described(rolledBack)) == Ready(rolledBack) && HandlerFor(rolledBack) == DeleteHandler
    requires Observe(req.stackName, Described(deleting)).Poll? && Observe(req.stackName, DescribeError(notFound)) == Ready("INIT")
    requires Observe(req.stackName, Described(creating)).Poll? && Observe(req.stackName, Described(complete)) == Ready(complete)
    ensures var run := Deploy(req, Remote([Described(rolledBack), Described(deleting), DescribeError(notFound), Described(creating), Described(complete)], [Accepted, Accepted]));
      && Mutations(run.calls) == [DeleteStack(req.stackName), HandlerCall(req, CreateHandler)]
      && run.outcome == Final(complete)
  {
    var ds := [Described(rolledBack), Described(deleting), DescribeError(notFound), Described(creating), Described(complete)];
    var later := [Described(creating), Described(complete)];
    Unfold5(Described(rolledBack), Described(deleting), DescribeError(notFound), Described(creating), Described(complete));
    Unfold2(Accepted, Accepted);
    Unfold1(Accepted);
    SettlesAtFirst(req.stackName, Described(rolledBack), [Described(deleting), DescribeError(notFound)] + later, [Accepted, Accepted]);
    ActSettlesAtSecond(req, DeleteHandler, Described(deleting), DescribeError(notFound), later, Accepted, [Accepted]);
    ActSettlesAtSecond(req, CreateHandler, Described(creating), Described(complete), [], Accepted, []);
    ThreePhaseRun(req, Remote(ds, [Accepted, Accepted]), 1, rolledBack, 2, 2, complete);
  }

  /** The stack is complete, and the update is answered with `result`,
      which the update handler does not pass on. */
  lemma UpdateInPlace(req: Request, complete: string, result: MutationResult)
    requires Observe(req.stackName, Described(complete)) == Ready(complete) && HandlerFor(complete) == UpdateHandler
    requires complete == "CREATE_COMPLETE" || complete == "UPDATE_COMPLETE"
    requires HandlerFailure(UpdateHandler, result).None?
    ensures var run := Deploy(req, Remote([Described(complete), Described(complete)], [result]));
      && Mutations(run.calls) == [HandlerCall(req, UpdateHandler)]
      && run.outcome == Final(complete)
  {
    var ds := [Described(complete), Described(complete)];
    Unfold2(Described(complete), Described(complete));
    Unfold1(result);
    SettlesAtFirst(req.stackName, Described(complete), [Described(complete)] + [], [result]);
    ActSettlesAtFirst(req, UpdateHandler, Described(complete), [], result, []);
    TwoPhaseRun(req, Remote(ds, [result]), 1, complete, 1, complete);
  }

  /** The stack is rolled back, then missing, and the create settles on
      `final` at once. */
  lemma DeleteThenCreateAtOnce(req: Request, rolledBack: string, notFound: string, final: string)
    requires Observe(req.stackName, Described(rolledBack)) == Ready(rolledBack) && HandlerFor(rolledBack) == DeleteHandler
    requires Observe(req.stackName, DescribeError(notFound)) == Ready("INIT")
    requires Observe(req.stackName, Described(final)) == Ready(final)
    ensures var run := Deploy(req, Remote([Described(rolledBack), DescribeError(notFound), Described(final)], [Accepted, Accepted]));
      && Mutations(run.calls) == [DeleteStack(req.stackName), HandlerCall(req, CreateHandler)]
      && run.outcome == Final(final)
  {
    var ds := [Described(rolledBack), DescribeError(notFound), Described(final)];
    Unfold3(Described(rolledBack), DescribeError(notFound), Described(final));
    Unfold2(Accepted, Accepted);
    Unfold1(Accepted);
    SettlesAtFirst(req.stackName, Described(rolledBack), [DescribeError(notFound)] + ([Described(final)] + []), [Accepted, Accepted]);
    ActSettlesAtFirst(req, DeleteHandler, DescribeError(notFound), [Described(final)] + [], Accepted, [Accepted]);
    ActSettlesAtFirst(req, CreateHandler, Described(final), [], Accepted, []);
    ThreePhaseRun(req, Remote(ds, [Accepted, Accepted]), 1, rolledBack, 1, 1, final);
  }

  // ---------------------------------------------------------------------
  // The scenarios

  /** The stack does not exist: one create, then `CREATE_COMPLETE`. */
  lemma FirstDeployment(stackName: string, inProgress: string, complete: string)
    requires inProgress == "CREATE_IN_PROGRESS" && complete == "CREATE_COMPLETE"
    ensures var run := Deploy(Deployment(stackName), Remote([NotFoundError(stackName), Described(inProgress), Described(complete)], [Accepted]));
      && Mutations(run.calls) == [CreateStack(stackName, [], [], "Resources: {}")]
      && run.outcome == Final("CREATE_COMPLETE")
  {
    NotFoundErrorIsInit(stackName);
    InProgressPolls(stackName, inProgress);
    CompletedIsReady(stackName, complete);
    CreateFromNothing(Deployment(stackName), NotFoundError(stackName).message, inProgress, complete);
  }

  /** The stack was rolled back: delete, wait until it is gone, create, wait
      for `CREATE_COMPLETE`. */
  lemma RecoverFromRollback(stackName: string, rolledBack: string, deleting: string, creating: string, complete: string)
    requires rolledBack == "ROLLBACK_COMPLETE" && deleting == "DELETE_IN_PROGRESS"
    requires creating == "CREATE_IN_PROGRESS" && complete == "CREATE_COMPLETE"
    ensures var run := Deploy(Deployment(stackName), Remote(
        [Described(rolledBack), Described(deleting), NotFoundError(stackName), Described(creating), Described(complete)],
        [Accepted, Accepted]));
      && Mutations(run.calls) == [DeleteStack(stackName), CreateStack(stackName, [], [], "Resources: {}")]
      && run.outcome == Final("CREATE_COMPLETE")
  {
    CompletedIsReady(stackName, rolledBack);
    InProgressPolls(stackName, deleting);
    NotFoundErrorIsInit(stackName);
    InProgressPolls(stackName, creating);
    CompletedIsReady(stackName, complete);
    DeleteThenCreate(Deployment(stackName), rolledBack, deleting, NotFoundError(stackName).message, creating, complete);
  }

  /** A stack in `UPDATE_ROLLBACK_FAILED`: no mutating call, and the run
      fails with the message naming that state. */
  lemma StuckInFailedState(stackName: string, failed: string)
    requires failed == "UPDATE_ROLLBACK_FAILED"
    ensures Deploy(Deployment(stackName), Remote([Described(failed)], []))
      == Run([DescribeStacks(stackName)], Failed(Failure(None,
           "Stack " + stackName + " is in the " + failed + " state. Fix that before trying to deploy again")))
  {
    FailedStateMatches(failed);
    FailedStatusStopsRun(Deployment(stackName), Remote([Described(failed)], []), 0);
    assert Describes(stackName, 1) == [DescribeStacks(stackName)];
  }

  lemma FailedStateMatches(failed: string)
    requires failed == "UPDATE_ROLLBACK_FAILED"
    ensures FailedPattern(failed)
  {
    assert failed == failed[..15] + "_FAILED" + "";
    FailedAnywhere("", failed[..15], "");
  }

  /** A stack already up to date: one update, rejected with "no updates",
      then the same `UPDATE_COMPLETE` again as the final status. */
  lemma NothingToUpdate(stackName: string, complete: string, noUpdates: string)
    requires complete == "UPDATE_COMPLETE" && noUpdates == "No updates are to be performed."
    ensures var run := Deploy(Deployment(stackName), Remote([Described(complete), Described(complete)], [Rejected(noUpdates)]));
      && Mutations(run.calls) == [UpdateStack(stackName, [], [], "Resources: {}")]
      && run.outcome == Final("UPDATE_COMPLETE")
  {
    CompletedIsReady(stackName, complete);
    UpdateInPlace(Deployment(stackName), complete, Rejected(noUpdates));
  }

  /** The phase-3 status is reported as it is: a create that rolls back
      after the stack vanished still ends with `ROLLBACK_COMPLETE` as the
      final status, not as a failure. */
  lemma Phase3IsUnchecked(stackName: string, rolledBack: string)
    requires rolledBack == "ROLLBACK_COMPLETE"
    ensures var run := Deploy(Deployment(stackName), Remote(
        [Described(rolledBack), NotFoundError(stackName), Described(rolledBack)],
        [Accepted, Accepted]));
      && Mutations(run.calls) == [DeleteStack(stackName), CreateStack(stackName, [], [], "Resources: {}")]
      && run.outcome == Final("ROLLBACK_COMPLETE")
  {
    CompletedIsReady(stackName, rolledBack);
    NotFoundErrorIsInit(stackName);
    DeleteThenCreateAtOnce(Deployment(stackName), rolledBack, NotFoundError(stackName).message, rolledBack);
  }
}
