/** The action's main pipeline: wait for the stack to settle (phase 1), run
    the handler its status selects, wait again (phase 2), and decide; a stack
    that has vanished by then is created once more and waited for (phase 3).
    The control plane is a pair of answer sequences: one response per
    describe call, one result per mutating call. */
module Pipeline {
  import opened Wrappers
  import opened Inputs
  import opened StackStatus

  /** The inputs of one run, after tokenising; the template file has been
      read into `templateBody`. */
  datatype Request = Request(stackName: string, templateBody: string, capabilities: seq<string>, parameters: seq<Parameter>)

  /** A call the run makes on the control plane, with the fields it sends. */
  datatype Call =
    | DescribeStacks(stackName: string)
    | CreateStack(stackName: string, capabilities: seq<string>, parameters: seq<Parameter>, templateBody: string)
    | DeleteStack(stackName: string)
    | UpdateStack(stackName: string, capabilities: seq<string>, parameters: seq<Parameter>, templateBody: string)
  {
    predicate IsMutation() { !DescribeStacks? }
  }

  /** What a mutating call answers: accepted, or an error with its message. */
  datatype MutationResult = Accepted | Rejected(message: string)

  /** The answers the control plane gives, in the order they are asked for. */
  datatype Remote = Remote(describes: seq<DescribeResponse>, mutations: seq<MutationResult>)

  /** How a run ends: the final status it reports, a failure, or still
      waiting for an answer when the answers ran out. */
  datatype Outcome = Final(status: string) | Failed(failure: Failure) | Pending

  /** A run: every call made, in order, and how it ended. */
  datatype Run = Run(calls: seq<Call>, outcome: Outcome)

  /** The entries of `StackStatusHandlers`. */
  datatype Handler = CreateHandler | DeleteHandler | UpdateHandler

  const NoUpdatesMessage := "No updates are to be performed."

  function DeploymentFailedMessage(stackName: string): string {
    "Stack " + stackName + " deployment failed"
  }

  /** `StackStatusHandlers[status] || StackStatusHandlers['DEFAULT']`. Only
      statuses the wait returned reach this lookup, so no status can name a
      property every JavaScript object inherits. */
  function HandlerFor(status: string): Handler {
    if status == "INIT" then CreateHandler
    else if status == "ROLLBACK_COMPLETE" then DeleteHandler
    else UpdateHandler
  }

  /** The one call a handler makes and the fields it sends. */
  function HandlerCall(req: Request, handler: Handler): Call {
    match handler
    case CreateHandler => CreateStack(req.stackName, req.capabilities, req.parameters, req.templateBody)
    case DeleteHandler => DeleteStack(req.stackName)
    case UpdateHandler => UpdateStack(req.stackName, req.capabilities, req.parameters, req.templateBody)
  }

  /** The failure a handler passes on for the call's result, if any: the
      update handler absorbs the "no updates" error, nothing else is absorbed. */
  function HandlerFailure(handler: Handler, result: MutationResult): Option<Failure> {
    match result
    case Accepted => None
    case Rejected(message) =>
      if handler == UpdateHandler && message == NoUpdatesMessage then None
      else Some(Failure(None, message))
  }

  /** The mutating calls among `calls`, in order. */
  function Mutations(calls: seq<Call>): (r: seq<Call>)
    ensures |r| <= |calls|
    ensures forall k :: 0 <= k < |r| ==> r[k].IsMutation()
    decreases |calls|
  {
    if |calls| == 0 then []
    else (if calls[0].IsMutation() then [calls[0]] else []) + Mutations(calls[1..])
  }

  /** `k` describe calls for the stack. */
  function Describes(stackName: string, k: nat): (calls: seq<Call>)
    ensures |calls| == k
  {
    seq(k, _ => DescribeStacks(stackName))
  }

  /** What one phase did: the calls it made, its result, and the answers
      left for the next phase. */
  datatype Phase = Phase(calls: seq<Call>, result: Observation, rest: Remote)

  /** A wait, as a phase. */
  function WaitPhase(stackName: string, remote: Remote): Phase {
    var w := Wait(stackName, remote.describes);
    Phase(Describes(stackName, w.consumed), w.observation, Remote(remote.describes[w.consumed..], remote.mutations))
  }

  /** A handler followed by a wait, as a phase: the call, and then the wait
      unless the handler passed on an error. */
  function ActPhase(req: Request, handler: Handler, remote: Remote): Phase {
    var call := HandlerCall(req, handler);
    if |remote.mutations| == 0 then Phase([call], Poll, remote)
    else
      var after := Remote(remote.describes, remote.mutations[1..]);
      match HandlerFailure(handler, remote.mutations[0])
      case Some(f) => Phase([call], Fatal(f), after)
      case None =>
        var w := WaitPhase(req.stackName, after);
        Phase([call] + w.calls, w.result, w.rest)
  }

  /** The outcome a last phase gives, its status taken without a check. */
  function Conclude(o: Observation): Outcome {
    match o
    case Poll => Pending
    case Fatal(f) => Failed(f)
    case Ready(s) => Final(s)
  }

  /** The pipeline: phase 1, the handler and phase 2, then the decision. */
  function Deploy(req: Request, remote: Remote): Run {
    var p1 := WaitPhase(req.stackName, remote);
    match p1.result
    case Poll => Run(p1.calls, Pending)
    case Fatal(f) => Run(p1.calls, Failed(f))
    case Ready(s1) =>
      var p2 := ActPhase(req, HandlerFor(s1), p1.rest);
      var calls := p1.calls + p2.calls;
      match p2.result
      case Poll => Run(calls, Pending)
      case Fatal(f) => Run(calls, Failed(f))
      case Ready(s2) =>
        if s2 == "UPDATE_COMPLETE" || s2 == "CREATE_COMPLETE" then Run(calls, Final(s2))
        else if s2 == "INIT" then
          var p3 := ActPhase(req, HandlerFor("INIT"), p2.rest);
          Run(calls + p3.calls, Conclude(p3.result))
        else Run(calls, Failed(Failure(Some(s2), DeploymentFailedMessage(req.stackName))))
  }
}
