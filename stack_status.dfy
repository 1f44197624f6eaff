/** `waitForStackReady`: how one describe response is read, and how the
    polling wait runs over the sequence of responses the control plane
    gives. The 30-second pause between two describes is not modelled; the
    next describe simply takes the next response. */
module StackStatus {
  import opened Wrappers
  import opened Strings

  /** What one describe call answers: an error with its message, or the
      (single) stack's status string. */
  datatype DescribeResponse = DescribeError(message: string) | Described(status: string)

  /** The failure value the stream carries to the final error handler:
      its `message`, and its `status`, which only a failed deployment sets. */
  datatype Failure = Failure(status: Option<string>, message: string)

  /** How one describe response is read: poll again, a status the wait
      returns, or a failure that ends the run. As the result of a whole
      wait, `Poll` means the responses ran out while the wait was still
      polling. */
  datatype Observation = Poll | Ready(status: string) | Fatal(failure: Failure)

  const NotFoundText := "does not exist"

  /** The keys of the dispatch table; a status equal to one of them is
      terminal for the wait. */
  const HandlerKeys: seq<string> := ["INIT", "ROLLBACK_COMPLETE", "DEFAULT"]

  /** `/^.*_FAILED/.test(s)`: `_FAILED` occurs before the first line
      terminator. The pattern is anchored only at the start. */
  predicate FailedPattern(s: string) {
    Contains(FirstLine(s), "_FAILED")
  }

  /** `/^.*_COMPLETE$/.test(s)`: `s` is a single line ending in `_COMPLETE`. */
  predicate CompletePattern(s: string) {
    SingleLine(s) && EndsWith(s, "_COMPLETE")
  }

  /** A status the wait stops at. */
  predicate IsTerminal(s: string) {
    CompletePattern(s) || s in HandlerKeys
  }

  function InFailedStateMessage(stackName: string, status: string): string {
    "Stack " + stackName + " is in the " + status + " state. Fix that before trying to deploy again"
  }

  /** The checks one status goes through, in the source's order: the
      failure pattern first, then the terminal test. */
  function CheckStatus(stackName: string, status: string): Observation {
    if FailedPattern(status) then Fatal(Failure(None, InFailedStateMessage(stackName, status)))
    else if IsTerminal(status) then Ready(status)
    else Poll
  }

  /** What the checks mean for the text of a status: it fails exactly when
      `_FAILED` occurs in its first line, and then with the fixed message;
      otherwise it is returned exactly when it is a single line ending in
      `_COMPLETE` or a handler key; otherwise the wait polls. */
  lemma StatusClassified(stackName: string, status: string)
    ensures var o := CheckStatus(stackName, status);
      && (o.Fatal? <==> exists a, b :: FirstLine(status) == a + "_FAILED" + b)
      && (o.Fatal? ==> o.failure == Failure(None, InFailedStateMessage(stackName, status)))
      && (o.Ready? ==> o.status == status)
      && (o.Ready? <==> !o.Fatal? && ((SingleLine(status) && EndsWith(status, "_COMPLETE")) || status in HandlerKeys))
  {
    ContainsExactly(FirstLine(status), "_FAILED");
  }

  /** One describe response: an error whose message mentions that the stack
      does not exist stands for the status `INIT`; any other error is passed
      on unchanged. */
  function Observe(stackName: string, response: DescribeResponse): Observation {
    match response
    case DescribeError(message) =>
      if Contains(message, NotFoundText) then CheckStatus(stackName, "INIT")
      else Fatal(Failure(None, message))
    case Described(status) => CheckStatus(stackName, status)
  }

  /** The result of a wait and how many describe responses it used. */
  datatype Waited = Waited(observation: Observation, consumed: nat)

  /** `waitForStackReady`: describe, and describe again while the answer
      asks to poll. The result is the first answer that is not a poll, or
      `Poll` if the responses run out first (see `WaitFirstSettled`). */
  function Wait(stackName: string, responses: seq<DescribeResponse>): (w: Waited)
    ensures w.consumed <= |responses|
    decreases |responses|
  {
    if |responses| == 0 then Waited(Poll, 0)
    else
      var o := Observe(stackName, responses[0]);
      if o.Poll? then
        var w := Wait(stackName, responses[1..]);
        Waited(w.observation, w.consumed + 1)
      else Waited(o, 1)
  }

  /** The wait describes until the first answer that does not ask to poll,
      and returns that answer; every earlier answer asked to poll. When it
      returns `Poll`, it used every response and each asked to poll. */
  lemma {:induction false} WaitFirstSettled(stackName: string, responses: seq<DescribeResponse>)
    ensures var w := Wait(stackName, responses);
      && (forall j :: 0 <= j < w.consumed - 1 ==> Observe(stackName, responses[j]).Poll?)
      && (w.observation.Poll? ==>
            w.consumed == |responses| && (w.consumed == 0 || Observe(stackName, responses[w.consumed - 1]).Poll?))
      && (!w.observation.Poll? ==>
            w.consumed > 0 && Observe(stackName, responses[w.consumed - 1]) == w.observation)
    decreases |responses|
  {
    if |responses| > 0 && Observe(stackName, responses[0]).Poll? {
      var rest := responses[1..];
      WaitFirstSettled(stackName, rest);
      var w := Wait(stackName, rest);
      forall j | 0 <= j < w.consumed ensures Observe(stackName, responses[j + 1]) == Observe(stackName, rest[j]) {
        assert responses[j + 1] == rest[j];
      }
    }
  }

  // ---------------------------------------------------------------------
  // Properties of the classification

  /** "Does not exist" is the status `INIT`, which the wait returns. */
  lemma NotFoundIsInit(stackName: string, message: string)
    requires Contains(message, NotFoundText)
    ensures Observe(stackName, DescribeError(message)) == Ready("INIT")
  {
    NotFailed("INIT", '_');
  }

  /** Any other describe error is passed on with its message unchanged. */
  lemma OtherErrorIsFatal(stackName: string, message: string)
    requires !Contains(message, NotFoundText)
    ensures Observe(stackName, DescribeError(message)) == Fatal(Failure(None, message))
  {
  }

  /** A describe error stands for `INIT` exactly when its message is built
      around "does not exist"; every other error is passed on. */
  lemma DescribeErrorClassified(stackName: string, message: string)
    ensures Observe(stackName, DescribeError(message)) ==
      if exists a, b :: message == a + NotFoundText + b then Ready("INIT") else Fatal(Failure(None, message))
  {
    ContainsExactly(message, NotFoundText);
    if Contains(message, NotFoundText) {
      NotFoundIsInit(stackName, message);
    }
  }

  /** A status lacking a character of `_FAILED` does not match the failure
      pattern. */
  lemma NotFailed(status: string, c: char)
    requires c in "_FAILED" && c !in status
    ensures !FailedPattern(status) && !Contains(status, "_FAILED")
  {
    if FailedPattern(status) {
      CharOfContained(FirstLine(status), "_FAILED", c);
    }
    if Contains(status, "_FAILED") {
      CharOfContained(status, "_FAILED", c);
    }
  }

  /** A single-line status with `_FAILED` anywhere in it, at the end or not,
      fails the wait with the fixed message; this is checked before the
      terminal test, so it holds for `..._FAILED_COMPLETE` too. */
  lemma FailedAnywhere(stackName: string, before: string, after: string)
    requires SingleLine(before + "_FAILED" + after)
    ensures FailedPattern(before + "_FAILED" + after)
    ensures var status := before + "_FAILED" + after;
      Observe(stackName, Described(status)) == Fatal(Failure(None, InFailedStateMessage(stackName, status)))
  {
    var status := before + "_FAILED" + after;
    FirstLineOfSingleLine(status);
    ContainsInside(before, "_FAILED", after);
  }

  /** A single-line status ending in `_COMPLETE` and free of `_FAILED`
      stops the wait. */
  lemma CompleteIsReady(stackName: string, prefix: string)
    requires SingleLine(prefix + "_COMPLETE")
    requires !Contains(prefix + "_COMPLETE", "_FAILED")
    ensures Observe(stackName, Described(prefix + "_COMPLETE")) == Ready(prefix + "_COMPLETE")
  {
    FirstLineOfSingleLine(prefix + "_COMPLETE");
    assert (prefix + "_COMPLETE")[|prefix|..] == "_COMPLETE";
  }

  /** The literal status `DEFAULT` is a handler key, so the wait stops at it. */
  lemma DefaultIsReady(stackName: string)
    ensures Observe(stackName, Described("DEFAULT")) == Ready("DEFAULT")
  {
    NotFailed("DEFAULT", '_');
  }

  // ---------------------------------------------------------------------
  // Properties of the wait

  /** A described status the wait returns is terminal and does not match the
      failure pattern; a not-found answer is returned as `INIT`. Only a
      describe error whose message lacks "does not exist", or a status with
      `_FAILED`, makes the wait fail. */
  lemma WaitReadyIsTerminal(stackName: string, responses: seq<DescribeResponse>)
    ensures var w := Wait(stackName, responses);
      w.observation.Ready? ==> IsTerminal(w.observation.status) && !FailedPattern(w.observation.status)
    ensures var w := Wait(stackName, responses);
      w.observation.Fatal? ==>
        match responses[w.consumed - 1]
        case DescribeError(m) => !Contains(m, NotFoundText) && w.observation.failure == Failure(None, m)
        case Described(s) => FailedPattern(s) && w.observation.failure == Failure(None, InFailedStateMessage(stackName, s))
  {
    var w := Wait(stackName, responses);
    WaitFirstSettled(stackName, responses);
    if !w.observation.Poll? {
      var r := responses[w.consumed - 1];
      if r.DescribeError? && Contains(r.message, NotFoundText) {
        NotFoundIsInit(stackName, r.message);
        NotFailed("INIT", '_');
      }
    }
  }

  /** More responses after the ones a finished wait used change nothing:
      the wait reads its responses in order and stops. */
  lemma {:induction false} WaitExtend(stackName: string, responses: seq<DescribeResponse>, more: seq<DescribeResponse>)
    requires !Wait(stackName, responses).observation.Poll?
    ensures Wait(stackName, responses + more) == Wait(stackName, responses)
    decreases |responses|
  {
    assert (responses + more)[0] == responses[0];
    if Observe(stackName, responses[0]).Poll? {
      assert (responses + more)[1..] == responses[1..] + more;
      WaitExtend(stackName, responses[1..], more);
    }
  }

  /** The wait stops at the first response that does not ask to poll. */
  lemma {:induction false} WaitStopsAtFirst(stackName: string, responses: seq<DescribeResponse>, k: nat)
    requires k < |responses|
    requires forall j :: 0 <= j < k ==> Observe(stackName, responses[j]).Poll?
    requires !Observe(stackName, responses[k]).Poll?
    ensures Wait(stackName, responses) == Waited(Observe(stackName, responses[k]), k + 1)
    decreases k
  {
    if k > 0 {
      assert Observe(stackName, responses[0]).Poll?;
      forall j | 0 <= j < k - 1 ensures Observe(stackName, responses[1..][j]).Poll? {
        assert responses[1..][j] == responses[j + 1];
      }
      WaitStopsAtFirst(stackName, responses[1..], k - 1);
    }
  }
}
