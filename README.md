# A model of the aws-cfn-deploy-action orchestrator

The action deploys one CloudFormation stack. It reads four inputs: a
template file, a stack name, a space-separated list of capabilities and a
space-separated list of `Key=Value` parameters. It then chains three phases
against the control plane:

1. Phase 1 waits until the stack settles.
2. It runs the handler that the settled status selects. `INIT` (the stack
   does not exist) creates the stack, `ROLLBACK_COMPLETE` deletes it, and
   any other status updates it. It then waits again (phase 2).
3. If phase 2 ends in `UPDATE_COMPLETE` or `CREATE_COMPLETE`, the run
   succeeds. If the stack has gone (`INIT`), the action creates it once
   more and waits a third time. Any other status fails the run.

The wait (`waitForStackReady`) describes the stack and classifies the
answer:

- An error saying the stack "does not exist" counts as the status `INIT`.
- Any other error fails the run.
- A status matching `/^.*_FAILED/` fails the run with a fixed message.
- A status matching `/^.*_COMPLETE$/`, or naming a handler key (`INIT`,
  `ROLLBACK_COMPLETE`, `DEFAULT`), ends the wait.
- Any other status makes it describe again.

The model is pure: every part of it is a function, and the properties are proved as lemmas.

- `Strings` models the JavaScript string operations the source relies on:
  - `split` with a one-character separator;
  - `indexOf`;
  - the three space-rewriting `replace` calls;
  - the two status regular expressions. These follow JavaScript's reading of
    `.`, which matches anything but a line terminator (`\n`, `\r`, U+2028,
    U+2029).
- `Inputs` models `processCapabilities` and `processParameters`. It also
  defines an independent reference reading, `Words`: the maximal runs of
  non-space characters.
- `StackStatus` models the classification of one describe answer
  (`Observe`) and the wait over a sequence of answers (`Wait`).
- `Pipeline` models the handler table, the three phases and the final
  decision. A run (`Deploy`) is the sequence of calls it makes together
  with its outcome:
  - the final status;
  - a failure, with the `status` and `message` outputs;
  - `Pending`, when it is still waiting and the answers have run out.
- `PipelineProperties` states what any run does, over every answer
  sequence.
- `Scenarios` puts whole runs together from their phases. It does this
  first over any statuses that the wait classifies in a given way, then
  for the concrete status names of the main deployments.

The control plane is a pair of answer sequences. One holds the response to
each describe call, in order. The other holds the result of each mutating
call (create, delete, update), in order.

## Model

| member | source | states |
|---|---|---|
| Strings.FirstLine | index.js:62 | the part of a status that `^.*` can cover: a prefix of the status, free of line terminators, ending where the status or its first line ends |
| Strings.FirstLineOfSingleLine | index.js:62 | a status without line terminators is its own first line |
| Strings.ContainsInside | index.js:58 | a block of text is found by `indexOf` in any string built around it |
| Strings.ContainsIsBlock | index.js:58 | a string in which `indexOf` finds a block is some text, that block, and more text |
| Strings.ContainsExactly | index.js:58 | `indexOf` finds a block exactly when the string is built around it |
| Strings.CharOfContained | index.js:58 | every character of a contained block occurs in the containing string |
| Strings.IndexOf | index.js:24 | the position of the first occurrence of a character: that character is there and not before |
| Strings.IndexOfAfter | index.js:24 | with no separator in `a`, the first separator of `a + [sep] + b` sits right after `a` |
| Strings.Split | index.js:24 | `split` gives at least one piece; no piece holds the separator |
| Strings.SplitAtFirst | index.js:31 | splitting `a + [sep] + b` (no `sep` in `a`) gives `a`, then the pieces of `b` |
| Strings.JoinSplit | index.js:24 | joining the pieces of a split with its separator gives back the string |
| Strings.SplitJoin | index.js:24 | splitting a join of separator-free pieces gives back the pieces |
| Strings.TrimStartSpaces | index.js:21 | the result is a suffix of the input; only spaces were removed; it does not start with a space |
| Strings.TrimEndSpaces | index.js:22 | the result is a prefix of the input; only spaces were removed; it does not end with a space |
| Strings.CollapseSpaces | index.js:23 | never longer than the input; first and last characters kept; no two adjacent spaces are left |
| Inputs.ProcessCapabilities | index.js:20-24 | the input is empty exactly when there are no tokens |
| Inputs.Words | index.js:20-24 | reference reading of a space-separated list: non-empty tokens without spaces, present exactly when the input holds a non-space |
| Inputs.NormaliseIsCanonical | index.js:21-23 | after the three `replace` calls, the string neither starts nor ends with a space and holds no two adjacent spaces |
| Inputs.CanonicalJoin | index.js:21-24 | such a string is its words joined by single spaces |
| Inputs.WordsTrimStart | index.js:21 | removing leading spaces keeps the words |
| Inputs.WordsSpaceAfter | index.js:22 | a trailing space adds no word |
| Inputs.WordsTrimEnd | index.js:22 | removing trailing spaces keeps the words |
| Inputs.WordsCollapse | index.js:23 | collapsing runs of spaces keeps the words |
| Inputs.WordsNormalise | index.js:21-23 | the three `replace` calls together keep the words |
| Inputs.CapabilitiesAreWords | index.js:20-24 | for an input with a non-space character, the tokens are exactly its words, in order; none is empty or holds a space |
| Inputs.BlankTrimsAway | index.js:21 | an input of spaces only is emptied by the leading-space `replace` |
| Inputs.CapabilitiesOfBlank | index.js:20-24 | a non-empty input of spaces only gives one empty token, not an empty list |
| Inputs.CapabilitiesRejoin | index.js:20-24 | the tokens of any input, joined by spaces, are the normalised input; the empty input gives no tokens and joins to the empty string |
| Inputs.ParameterOfToken | index.js:31-35 | the key is the text before the first `=`, or the whole token when it has no `=`; the value is absent exactly when the token has no `=`; otherwise it is the `=`-free text after the first `=`, up to the next `=` or the end |
| Inputs.ValueOfRest | index.js:31-32 | the value piece follows the key and `=` in the token and ends at an `=` or at the end |
| Inputs.ParametersFollowTokens | index.js:26-35 | one record per token, in order, each read from its own token: key before the first `=` or the whole token, value absent exactly without `=`, else the text up to the next `=` or the end |
| Inputs.CollapseWithoutSpaces | index.js:23 | an input without spaces is left unchanged by the collapsing `replace` |
| Inputs.SingleToken | index.js:20-24 | a non-empty input without spaces is a single token |
| Inputs.TwoEqualsParameter | index.js:31-35 | `a=b=c` (no `=` in `a`, `b`) gives key `a` and value `b` |
| Inputs.SecondEqualsDropped | index.js:26-35 | a single token `a=b=c` (the key may be empty) gives exactly one record with key `a` and value `b`; `c` is dropped |
| Inputs.ExampleSecondEquals | index.js:26-35 | `a=b=c` gives `[{a, b}]` |
| Inputs.ExampleNoEquals | index.js:26-35 | `Stage` gives one record with no value |
| Inputs.ExampleBlank | index.js:20-35 | three spaces give one empty token and one record with an empty key and no value |
| StackStatus.StatusClassified | index.js:62-69 | a status fails exactly when `_FAILED` occurs in its first line, and then with the fixed message; it is returned unchanged exactly when it does not fail and is a single line ending in `_COMPLETE` or a handler key; anything else polls |
| StackStatus.DescribeErrorClassified | index.js:56-61 | a describe error becomes `INIT` exactly when its message contains "does not exist"; otherwise it fails with its own message |
| StackStatus.Wait | index.js:52-69 | the wait never uses more answers than it was given |
| StackStatus.WaitFirstSettled | index.js:52-69 | every answer before the last one used asked to poll; the result is the last one used, or `Poll` once every answer has asked to poll |
| StackStatus.NotFoundIsInit | index.js:56-66 | a describe error mentioning "does not exist" becomes `INIT`, which ends the wait |
| StackStatus.OtherErrorIsFatal | index.js:56-61 | any other describe error is passed on with its message unchanged |
| StackStatus.NotFailed | index.js:62 | a status lacking one of the characters of `_FAILED` does not match the failure pattern |
| StackStatus.FailedAnywhere | index.js:62-65 | `_FAILED` anywhere in a single-line status, at the end or not, matches and fails the wait with the fixed message |
| StackStatus.CompleteIsReady | index.js:66-67 | a single-line status ending in `_COMPLETE` and without `_FAILED` ends the wait |
| StackStatus.DefaultIsReady | index.js:66 | the literal status `DEFAULT` is a handler key and ends the wait |
| StackStatus.WaitReadyIsTerminal | index.js:52-69 | a status the wait returns is terminal and not failed; a failure comes from an error without "does not exist" or from a `_FAILED` status |
| StackStatus.WaitExtend | index.js:66-68 | answers after the ones a finished wait used change nothing |
| StackStatus.WaitStopsAtFirst | index.js:66-68 | the wait stops at the first answer that does not ask to poll and returns it |
| Pipeline.Mutations | index.js:71-92 | never more mutating calls than calls, and each one mutates |
| PipelineProperties.MutationsExactly | index.js:71-92 | a call is among the mutating calls exactly when it is one of the calls and it mutates |
| Pipeline.Describes | index.js:52 | a wait that used `k` answers made `k` calls |
| PipelineProperties.MutationsAppend | index.js:104-125 | the mutating calls keep the order of the calls: those of two call sequences come one after the other |
| PipelineProperties.MutationsOfPieces | index.js:104-125 | the mutating calls of three call sequences, one after the other |
| PipelineProperties.DescribesOnlyDescribe | index.js:52 | every call a wait makes is a describe of its stack |
| PipelineProperties.DescribesMutateNothing | index.js:52 | a wait makes no mutating call and names only its stack |
| PipelineProperties.WaitPhaseDescribesOnly | index.js:52-69 | a wait phase only describes the stack and uses no mutation result |
| PipelineProperties.ActPhaseMutatesOnce | index.js:106-112 | a handler phase makes exactly its handler's call, first, and otherwise only describes the stack |
| PipelineProperties.NamesStackAppend | index.js:104-125 | calls that all name the stack still do when concatenated |
| PipelineProperties.MutationsOfRun | index.js:104-125 | no mutating call unless phase 1 returned a status; otherwise the handler call that status selects, possibly followed by one create; at most two; every call names the stack |
| PipelineProperties.Phase1Stops | index.js:104-106 | phase 1 reads answers up to the first that does not ask to poll, and that answer decides what follows |
| PipelineProperties.ActPhaseStops | index.js:106-112 | after an accepted handler call, the wait reads answers up to the first that does not ask to poll |
| PipelineProperties.FailedStatusStopsRun | index.js:62-65 | a `_FAILED` status in phase 1 ends the run with the fixed message and no mutating call |
| PipelineProperties.DescribeErrorStopsRun | index.js:56-61 | a describe error without "does not exist" in phase 1 ends the run with that error |
| PipelineProperties.DispatchTable | index.js:71-92 | `INIT` creates with all fields; `ROLLBACK_COMPLETE` deletes with the name only; every other status, `DEFAULT` included, updates with all fields |
| PipelineProperties.RunCallsAfterPhase1 | index.js:104-112 | the call right after the phase-1 describes is the handler phase's first call |
| PipelineProperties.FirstMutationByStatus | index.js:104-112 | the run's first mutating call comes right after the phase-1 describes and is the one the phase-1 status selects |
| PipelineProperties.NoUpdatesIsAccepted | index.js:91 | the update handler's "No updates are to be performed." error makes the run go on as if the update had been accepted |
| PipelineProperties.MutationErrorStopsRun | index.js:79-91 | any other error of the first mutating call ends the run with that error, right after the call |
| PipelineProperties.ActPhaseFailureCause | index.js:106-112 | a handler phase fails only when the handler passes on its call's error, or when the call was accepted and the wait after it failed |
| PipelineProperties.Phase2FailureStopsRun | index.js:106-113 | a failed handler call or a failed phase-2 wait (a `_FAILED` status, or a describe error other than "does not exist") ends the run with that failure, after the handler call as its only mutating call |
| PipelineProperties.Phase3FailureStopsRun | index.js:116-123 | after phase 2 saw the stack gone, a failed create or a failed phase-3 wait ends the run with that failure, after the handler call and the create |
| PipelineProperties.Phase2Decision | index.js:114-125 | after phase 2, `UPDATE_COMPLETE` and `CREATE_COMPLETE` are final; `INIT` adds one create and reports the phase-3 status unchecked; any other status fails with that status and "deployment failed" |
| PipelineProperties.WaitPhaseExtend | index.js:52-69 | extra answers after a finished wait phase are left over for later phases |
| PipelineProperties.ActPhaseExtend | index.js:106-112 | extra answers after a finished handler phase are left over for later phases |
| PipelineProperties.DeployExtend | index.js:104-125 | extra answers after a finished run change nothing about it |
| Scenarios.NotFoundErrorIsInit | index.js:58-59 | the control plane's "Stack with id … does not exist" error becomes `INIT` |
| Scenarios.NotComplete | index.js:66 | a status whose last letter is not `E` does not end in `_COMPLETE` |
| Scenarios.PollsWithoutF | index.js:62-68 | a status without `F`, that is not a handler key and does not end in `E`, asks to poll |
| Scenarios.InProgressPolls | index.js:62-68 | `CREATE_IN_PROGRESS` and `DELETE_IN_PROGRESS` ask to poll |
| Scenarios.CompleteWithoutF | index.js:62-67 | a single-line status ending in `_COMPLETE` and without `F` ends the wait |
| Scenarios.CompletedIsReady | index.js:62-67 | `CREATE_COMPLETE`, `UPDATE_COMPLETE` and `ROLLBACK_COMPLETE` end the wait |
| Scenarios.FailedStateMatches | index.js:62 | `UPDATE_ROLLBACK_FAILED` matches the failure pattern |
| Scenarios.MutationThenDescribes | index.js:106-112 | a handler call followed by describes holds one mutating call |
| Scenarios.SettlesAtFirst | index.js:52-69 | a wait whose first answer does not ask to poll uses that answer only |
| Scenarios.ActSettlesAtFirst | index.js:106-112 | a handler phase whose first answer does not ask to poll makes its call and one describe |
| Scenarios.ActSettlesAtSecond | index.js:106-112 | a handler phase whose answers poll once and then settle makes its call and two describes |
| Scenarios.TwoPhaseRun | index.js:104-115 | a run whose phase 2 completed a create or update makes one mutating call and reports that status |
| Scenarios.ThreePhaseRun | index.js:104-123 | a run whose phase 2 saw the stack gone makes a second, create call and reports the phase-3 status |
| Scenarios.CreateFromNothing | index.js:104-115 | missing, then polling, then complete: one create, and the completed status as the final one |
| Scenarios.DeleteThenCreate | index.js:104-123 | rolled back, deleting, missing, creating, complete: a delete, then a create, and the completed status as the final one |
| Scenarios.UpdateInPlace | index.js:83-115 | a completed stack whose update is accepted or has nothing to change: one update, and that status as the final one |
| Scenarios.DeleteThenCreateAtOnce | index.js:104-123 | rolled back, missing, then settled: a delete, then a create, and whatever phase 3 saw as the final status |
| Scenarios.FirstDeployment | index.js:104-115 | a first deployment creates the stack once and ends with `CREATE_COMPLETE` |
| Scenarios.RecoverFromRollback | index.js:104-123 | a rolled-back stack is deleted, then created, and the run ends with `CREATE_COMPLETE` |
| Scenarios.StuckInFailedState | index.js:62-65 | a stack in `UPDATE_ROLLBACK_FAILED` gets one describe, no mutating call, and the message naming that state |
| Scenarios.NothingToUpdate | index.js:83-115 | an up-to-date stack gets one update; "no updates" is absorbed and the run ends with `UPDATE_COMPLETE` |
| Scenarios.Phase3IsUnchecked | index.js:116-123 | a create in phase 3 that ends in `ROLLBACK_COMPLETE` is reported as the final status, not as a failure |

The functions without contracts of their own are specified by the lemmas
above:

- `Strings.Contains` (`indexOf(...) !== -1`, index.js:58) by
  `ContainsExactly`, `ContainsIsBlock`, `ContainsInside` and
  `CharOfContained`;
- `Inputs.Normalise` (the three `replace` calls, index.js:21-23) by
  `NormaliseIsCanonical`, `WordsNormalise` and `CapabilitiesRejoin`;
- `Inputs.ToParameter` (index.js:31-35) by `ParameterOfToken` and
  `TwoEqualsParameter`;
- `Inputs.ProcessParameters` (index.js:26-35) by `ParametersFollowTokens`
  and `SecondEqualsDropped`;
- `StackStatus.FailedPattern`, `StackStatus.CompletePattern`,
  `StackStatus.IsTerminal` and `StackStatus.CheckStatus` (index.js:62-69) by
  `StatusClassified`, `FailedAnywhere`, `CompleteIsReady`, `DefaultIsReady`
  and `NotFailed`;
- `StackStatus.Observe` (index.js:56-69) by `DescribeErrorClassified`,
  `NotFoundIsInit` and `OtherErrorIsFatal` for errors; a status goes
  straight to `CheckStatus`;
- `Pipeline.HandlerFor`, `Pipeline.HandlerCall` and `Pipeline.HandlerFailure`
  by `DispatchTable`, `NoUpdatesIsAccepted` and `MutationErrorStopsRun`;
- `Pipeline.WaitPhase` and `Pipeline.ActPhase` by `Phase1Stops`,
  `ActPhaseStops` and `ActPhaseMutatesOnce`;
- `Pipeline.Deploy` by `MutationsOfRun`, `FirstMutationByStatus`,
  `Phase2Decision` and `DeployExtend`.

The model follows the code, including these behaviours:

- Every wait ends on one of the handler keys `INIT`, `ROLLBACK_COMPLETE` and
  `DEFAULT`, and on any single-line `_COMPLETE` status. So the literal
  status `DEFAULT` ends a wait, and `ROLLBACK_COMPLETE` ends it on both
  counts.
- `_FAILED` is tested before `_COMPLETE`.
- Phase 2 succeeds only on `UPDATE_COMPLETE` or `CREATE_COMPLETE`. Any other
  completed status, such as `DELETE_COMPLETE` or
  `UPDATE_ROLLBACK_COMPLETE`, fails the run.
- The phase-3 status is reported without any check.
- A non-empty input made only of spaces gives one empty token rather than
  none.
- Parameter values can be absent.
- Parameters form an ordered list, not a map.
- There is no cancellation and no configurable poll interval.

## Left out

- Reading the inputs (`getStackInputs`, `core.getInput`, the `debug` flag) and the template file (`fs.readFile`, UTF-8 decoding): the request arrives already tokenised, and the template is a string.
- The AWS SDK and the network: each describe and each mutating call is answered from the next element of its answer sequence.
- The 30-second delay between describes, Highland stream mechanics, and logging: none of them changes which calls are made or how a run ends.
- Unbounded polling: a wait goes on only as long as its answer sequence does, and a run that runs out of answers ends as `Pending`. `PipelineProperties.DeployExtend` shows that answers beyond those a finished run used change nothing.
- The shape of a describe response (`Stacks: [{ StackStatus }]`): an answer is either a stack status or an error message. An empty or missing `Stacks` array, which makes the destructuring at index.js:54 throw, is not modelled. A stack entry without a status is not a case of its own either: JavaScript then reads the status as the string `"undefined"`, which the wait polls on, as it does for `Described("undefined")`.
- The outputs (`core.setOutput`, `core.setFailed`, `console`): a run reports its outcome as a value. A failure carries `status` only where the source sets it (the phase-2 "deployment failed" error). Errors coming from the SDK carry none.
- Errors of create, delete and update are modelled by their message only.
- Looking a status up in `StackStatusHandlers` can, in JavaScript, find an inherited property such as `toString`. Only statuses the wait returned reach that lookup, and those are `_COMPLETE` statuses or handler keys, so this case cannot arise.
- Strings are sequences of characters. There is no model of UTF-16 surrogate pairs in the regular expressions.
- Pipeline.Mutations: its own contract gives only a bound and that every kept call mutates; `PipelineProperties.MutationsExactly` states which calls it keeps and `PipelineProperties.MutationsAppend` that it keeps their order.
- Pipeline.Describes: its own contract gives only the number of calls; `PipelineProperties.DescribesOnlyDescribe` states that each of them describes the stack, and `PipelineProperties.DescribesMutateNothing` that none mutates.
- StackStatus.Wait: its own contract gives only the bound on the answers it uses; what it returns is stated by `StackStatus.WaitFirstSettled` and `StackStatus.WaitStopsAtFirst`.
