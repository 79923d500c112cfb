/** The readiness poller: asks the cluster for its metadata until enough brokers
    answer or the time budget runs out. The admin client is a deterministic
    oracle and the clock counts whole milliseconds since the poll started. */
module Readiness {
  import opened Wrappers
  import opened Config

  /** The pause between two metadata requests, at most. */
  const BrokerMetadataRequestBackoffMs := 1000
  /** The timeout of one metadata request, at most. */
  const DefaultMetadataTimeoutMs := 5000

  function Min(a: int, b: int): (r: int)
    ensures r <= a && r <= b && (r == a || r == b)
  {
    if a <= b then a else b
  }

  /** What one metadata request yields: an error, or the brokers of the cluster. */
  datatype Metadata = MetadataError | Brokers(count: nat)

  /** How the cluster answers one request: the metadata and how long the answer takes. */
  datatype Response = Response(metadata: Metadata, latencyMs: nat)

  /** The admin client: its n-th request (counting from 0) is answered by respond(n). */
  datatype AdminClient = AdminClient(respond: nat -> Response)

  /** The n-th metadata request under the given timeout, and the time it takes:
      an answer that would come later than the timeout is an error at the timeout. */
  function GetMetadata(client: AdminClient, n: nat, timeoutMs: nat): (r: (Metadata, nat))
    ensures r.1 <= timeoutMs
    ensures r.0.Brokers? ==> r.0 == client.respond(n).metadata
  {
    var answer := client.respond(n);
    if answer.latencyMs <= timeoutMs then (answer.metadata, answer.latencyMs)
    else (MetadataError, timeoutMs)
  }

  /** One pass of the loop: the time left when it started, the timeout given to
      the request, the request's answer, and the pause after it (0 when the
      answer ended the loop). */
  datatype Step = Step(remainingMs: int, metadataTimeoutMs: nat, metadata: Metadata, backoffMs: nat)

  /** A whole poll: how it ended, its passes, and the clock when it returned. */
  datatype Run = Run(outcome: Outcome<Error>, steps: seq<Step>, elapsedMs: int)

  predicate Sufficient(m: Metadata, minBrokers: int) {
    m.Brokers? && m.count >= minBrokers
  }

  /** The polling loop from a state with elapsedMs on the clock, brokerCount
      brokers last seen and calls requests made so far. */
  function Poll(client: AdminClient, minBrokers: int, timeoutMs: int, elapsedMs: int, brokerCount: nat, calls: nat): Run
    decreases timeoutMs - elapsedMs
  {
    var remainingMs := timeoutMs - elapsedMs;
    if remainingMs <= 0 then Run(Fail(Timeout(minBrokers, brokerCount)), [], elapsedMs)
    else
      var metadataTimeout := Min(DefaultMetadataTimeoutMs, remainingMs);
      var (metadata, took) := GetMetadata(client, calls, metadataTimeout);
      if Sufficient(metadata, minBrokers) then
        Run(Pass, [Step(remainingMs, metadataTimeout, metadata, 0)], elapsedMs + took)
      else
        var count := if metadata.Brokers? then metadata.count else brokerCount;
        var sleepDuration := Min(BrokerMetadataRequestBackoffMs, remainingMs);
        var rest := Poll(client, minBrokers, timeoutMs, elapsedMs + took + sleepDuration, count, calls + 1);
        Run(rest.outcome, [Step(remainingMs, metadataTimeout, metadata, sleepDuration)] + rest.steps, rest.elapsedMs)
  }

  /** A readiness check: create the admin client, then poll from a clock at 0. */
  function ReadinessCheck(config: ConfigMap, minBrokers: int, timeoutSecs: int, newAdminClient: ConfigMap -> Option<AdminClient>): Run {
    match newAdminClient(config)
    case None => Run(Fail(ClientCreationFailed), [], 0)
    case Some(client) => Poll(client, minBrokers, timeoutSecs * 1000, 0, 0, 0)
  }

  /** Polls the cluster's metadata until at least minBrokers brokers are seen or
      timeoutSecs seconds have passed; also returns the clock at the return.
      The passes it makes are those of the run it is specified by. */
  method WaitForKafkaReady(config: ConfigMap, minBrokers: int, timeoutSecs: int, newAdminClient: ConfigMap -> Option<AdminClient>)
    returns (r: Outcome<Error>, elapsedMs: int)
    ensures r == ReadinessCheck(config, minBrokers, timeoutSecs, newAdminClient).outcome
    ensures elapsedMs == ReadinessCheck(config, minBrokers, timeoutSecs, newAdminClient).elapsedMs
  {
    var created := newAdminClient(config);
    if created.None? {
      return Fail(ClientCreationFailed), 0;
    }
    var client := created.value;
    var timeoutMs := timeoutSecs * 1000;
    elapsedMs := 0;
    var brokerCount: nat := 0;
    var calls: nat := 0;
    ghost var whole := Poll(client, minBrokers, timeoutMs, 0, 0, 0);
    while true
      invariant var rest := Poll(client, minBrokers, timeoutMs, elapsedMs, brokerCount, calls);
        whole.outcome == rest.outcome && whole.elapsedMs == rest.elapsedMs
      decreases timeoutMs - elapsedMs
    {
      var remainingMs := timeoutMs - elapsedMs;
      if remainingMs <= 0 {
        return Fail(Timeout(minBrokers, brokerCount)), elapsedMs;
      }
      var metadataTimeout := Min(DefaultMetadataTimeoutMs, remainingMs);
      var (metadata, took) := GetMetadata(client, calls, metadataTimeout);
      elapsedMs := elapsedMs + took;
      calls := calls + 1;
      if metadata.Brokers? {
        brokerCount := metadata.count;
        if brokerCount >= minBrokers {
          return Pass, elapsedMs;
        }
      }
      var sleepDuration := Min(BrokerMetadataRequestBackoffMs, remainingMs);
      elapsedMs := elapsedMs + sleepDuration;
    }
  }

  // ---------------------------------------------------------------------------
  // Properties of the loop

  /** The broker count of the last successful answer among the steps, or
      initial when none of them succeeded. */
  function LastCount(steps: seq<Step>, initial: nat): nat {
    if steps == [] then initial
    else LastCount(steps[1..], if steps[0].metadata.Brokers? then steps[0].metadata.count else initial)
  }

  /** A request given a timeout of at most 5000 ms and never more than the time left. */
  predicate RequestWithinBudget(step: Step) {
    0 < step.remainingMs && 0 < step.metadataTimeoutMs <= DefaultMetadataTimeoutMs
    && step.metadataTimeoutMs <= step.remainingMs
  }

  /** A pause of 1 to 1000 ms and never more than the time left. */
  predicate PauseWithinBudget(step: Step) {
    0 < step.backoffMs <= BrokerMetadataRequestBackoffMs && step.backoffMs <= step.remainingMs
  }

  /** Every request waits at most 5000 ms and never past the time left; every
      pause after an answer that did not end the loop lasts between 1 and
      1000 ms and never past the time left; the time left shrinks from one pass
      to the next by at least the pause between them. */
  lemma {:induction false} WaitsAreBounded(client: AdminClient, minBrokers: int, timeoutMs: int, elapsedMs: int, brokerCount: nat, calls: nat)
    ensures var run := Poll(client, minBrokers, timeoutMs, elapsedMs, brokerCount, calls);
      && (run.steps != [] ==> run.steps[0].remainingMs == timeoutMs - elapsedMs)
      && (forall i :: 0 <= i < |run.steps| ==> RequestWithinBudget(run.steps[i]))
      && (forall i :: 0 <= i < |run.steps| - 1 ==>
            PauseWithinBudget(run.steps[i]) && run.steps[i + 1].remainingMs <= run.steps[i].remainingMs - run.steps[i].backoffMs)
      && (run.outcome.Fail? && run.steps != [] ==> PauseWithinBudget(run.steps[|run.steps| - 1]))
    decreases timeoutMs - elapsedMs
  {
    var remainingMs := timeoutMs - elapsedMs;
    if remainingMs > 0 {
      var metadataTimeout := Min(DefaultMetadataTimeoutMs, remainingMs);
      var (metadata, took) := GetMetadata(client, calls, metadataTimeout);
      if !Sufficient(metadata, minBrokers) {
        var count := if metadata.Brokers? then metadata.count else brokerCount;
        var sleepDuration := Min(BrokerMetadataRequestBackoffMs, remainingMs);
        var next := elapsedMs + took + sleepDuration;
        WaitsAreBounded(client, minBrokers, timeoutMs, next, count, calls + 1);
        assert Poll(client, minBrokers, timeoutMs, elapsedMs, brokerCount, calls).steps
            == [Step(remainingMs, metadataTimeout, metadata, sleepDuration)] + Poll(client, minBrokers, timeoutMs, next, count, calls + 1).steps;
      }
    }
  }

  /** The metadata of a pass is the answer to the n-th request under the pass's timeout. */
  predicate Answers(client: AdminClient, n: nat, step: Step) {
    step.metadata == GetMetadata(client, n, step.metadataTimeoutMs).0
  }

  /** The i-th pass makes the (calls + i)-th request, under its own timeout. */
  lemma {:induction false} StepsFollowRequests(client: AdminClient, minBrokers: int, timeoutMs: int, elapsedMs: int, brokerCount: nat, calls: nat)
    ensures var run := Poll(client, minBrokers, timeoutMs, elapsedMs, brokerCount, calls);
      forall i :: 0 <= i < |run.steps| ==> Answers(client, calls + i, run.steps[i])
    decreases timeoutMs - elapsedMs
  {
    var remainingMs := timeoutMs - elapsedMs;
    if remainingMs > 0 {
      var metadataTimeout := Min(DefaultMetadataTimeoutMs, remainingMs);
      var (metadata, took) := GetMetadata(client, calls, metadataTimeout);
      if !Sufficient(metadata, minBrokers) {
        var count := if metadata.Brokers? then metadata.count else brokerCount;
        var sleepDuration := Min(BrokerMetadataRequestBackoffMs, remainingMs);
        var next := elapsedMs + took + sleepDuration;
        StepsFollowRequests(client, minBrokers, timeoutMs, next, count, calls + 1);
        forall i | 1 <= i < |Poll(client, minBrokers, timeoutMs, elapsedMs, brokerCount, calls).steps|
          ensures Answers(client, calls + i, Poll(client, minBrokers, timeoutMs, elapsedMs, brokerCount, calls).steps[i])
        {
          assert Answers(client, (calls + 1) + (i - 1), Poll(client, minBrokers, timeoutMs, next, count, calls + 1).steps[i - 1]);
        }
      }
    }
  }

  /** The poll succeeds exactly when its last pass saw enough brokers, and no
      earlier pass did; otherwise it times out, reporting the broker count of
      the last successful answer (errors do not reset it). */
  lemma {:induction false} OutcomeOfPoll(client: AdminClient, minBrokers: int, timeoutMs: int, elapsedMs: int, brokerCount: nat, calls: nat)
    ensures var run := Poll(client, minBrokers, timeoutMs, elapsedMs, brokerCount, calls);
      && (run.outcome.Pass? <==> run.steps != [] && Sufficient(run.steps[|run.steps| - 1].metadata, minBrokers))
      && (forall i :: 0 <= i < |run.steps| - 1 ==> !Sufficient(run.steps[i].metadata, minBrokers))
      && (run.outcome.Fail? ==> run.outcome == Fail(Timeout(minBrokers, LastCount(run.steps, brokerCount))))
    decreases timeoutMs - elapsedMs
  {
    var remainingMs := timeoutMs - elapsedMs;
    if remainingMs > 0 {
      var metadataTimeout := Min(DefaultMetadataTimeoutMs, remainingMs);
      var (metadata, took) := GetMetadata(client, calls, metadataTimeout);
      if !Sufficient(metadata, minBrokers) {
        var count := if metadata.Brokers? then metadata.count else brokerCount;
        var sleepDuration := Min(BrokerMetadataRequestBackoffMs, remainingMs);
        var next := elapsedMs + took + sleepDuration;
        OutcomeOfPoll(client, minBrokers, timeoutMs, next, count, calls + 1);
        var rest := Poll(client, minBrokers, timeoutMs, next, count, calls + 1);
        var run := Poll(client, minBrokers, timeoutMs, elapsedMs, brokerCount, calls);
        assert run.steps == [Step(remainingMs, metadataTimeout, metadata, sleepDuration)] + rest.steps;
        assert run.steps[1..] == rest.steps;
        assert forall i :: 1 <= i < |run.steps| ==> run.steps[i] == rest.steps[i - 1];
      }
    }
  }

  /** The poll returns before the deadline when it succeeds and at or after it
      when it times out, but at most one pause (1000 ms) after it: the pause is
      bounded by the time left before the request, not after it. */
  lemma {:induction false} ReturnTime(client: AdminClient, minBrokers: int, timeoutMs: int, elapsedMs: int, brokerCount: nat, calls: nat)
    ensures var run := Poll(client, minBrokers, timeoutMs, elapsedMs, brokerCount, calls);
      && run.elapsedMs >= elapsedMs
      && (run.outcome.Pass? ==> run.elapsedMs <= timeoutMs)
      && (run.outcome.Fail? ==> run.elapsedMs >= timeoutMs)
      && (elapsedMs <= timeoutMs ==> run.elapsedMs <= timeoutMs + BrokerMetadataRequestBackoffMs)
    decreases timeoutMs - elapsedMs
  {
    var remainingMs := timeoutMs - elapsedMs;
    if remainingMs > 0 {
      var metadataTimeout := Min(DefaultMetadataTimeoutMs, remainingMs);
      var (metadata, took) := GetMetadata(client, calls, metadataTimeout);
      if !Sufficient(metadata, minBrokers) {
        var count := if metadata.Brokers? then metadata.count else brokerCount;
        var sleepDuration := Min(BrokerMetadataRequestBackoffMs, remainingMs);
        ReturnTime(client, minBrokers, timeoutMs, elapsedMs + took + sleepDuration, count, calls + 1);
      }
    }
  }

  /** A cluster that answers every request with an error makes the poll time
      out reporting the count it started with. */
  lemma {:induction false} ErrorsNeverReady(client: AdminClient, minBrokers: int, timeoutMs: int, elapsedMs: int, brokerCount: nat, calls: nat)
    requires forall n :: calls <= n ==> client.respond(n).metadata == MetadataError
    ensures Poll(client, minBrokers, timeoutMs, elapsedMs, brokerCount, calls).outcome == Fail(Timeout(minBrokers, brokerCount))
    decreases timeoutMs - elapsedMs
  {
    var remainingMs := timeoutMs - elapsedMs;
    if remainingMs > 0 {
      var metadataTimeout := Min(DefaultMetadataTimeoutMs, remainingMs);
      var (metadata, took) := GetMetadata(client, calls, metadataTimeout);
      var sleepDuration := Min(BrokerMetadataRequestBackoffMs, remainingMs);
      ErrorsNeverReady(client, minBrokers, timeoutMs, elapsedMs + took + sleepDuration, brokerCount, calls + 1);
    }
  }

  // ---------------------------------------------------------------------------
  // Properties of a whole readiness check

  /** A client that cannot be created ends the check at once. */
  lemma ClientCreationIsFatal(config: ConfigMap, minBrokers: int, timeoutSecs: int, newAdminClient: ConfigMap -> Option<AdminClient>)
    requires newAdminClient(config).None?
    ensures ReadinessCheck(config, minBrokers, timeoutSecs, newAdminClient) == Run(Fail(ClientCreationFailed), [], 0)
  {
  }

  /** With no time budget the check times out before making any request,
      reporting 0 brokers. */
  lemma NoBudgetNoRequest(config: ConfigMap, minBrokers: int, timeoutSecs: int, newAdminClient: ConfigMap -> Option<AdminClient>)
    requires newAdminClient(config).Some? && timeoutSecs <= 0
    ensures ReadinessCheck(config, minBrokers, timeoutSecs, newAdminClient) == Run(Fail(Timeout(minBrokers, 0)), [], 0)
  {
  }

  /** A cluster that only ever answers with errors makes any check time out
      reporting 0 brokers. */
  lemma UnreachableClusterTimesOut(config: ConfigMap, minBrokers: int, timeoutSecs: int, newAdminClient: ConfigMap -> Option<AdminClient>)
    requires newAdminClient(config).Some?
    requires forall n :: newAdminClient(config).value.respond(n).metadata == MetadataError
    ensures ReadinessCheck(config, minBrokers, timeoutSecs, newAdminClient).outcome == Fail(Timeout(minBrokers, 0))
  {
    ErrorsNeverReady(newAdminClient(config).value, minBrokers, timeoutSecs * 1000, 0, 0, 0);
  }

  /** A cluster that reports 1 broker to the first two requests and 3 from then
      on, answering at once, is seen ready by the third request when 3 brokers
      are expected with a 10 s budget, two pauses of 1000 ms later. */
  lemma ReadyOnThirdRequest(client: AdminClient)
    requires forall n :: client.respond(n) == Response(Brokers(if n < 2 then 1 else 3), 0)
    ensures var run := Poll(client, 3, 10000, 0, 0, 0);
      run.outcome == Pass && |run.steps| == 3 && run.elapsedMs == 2000
  {
    assert GetMetadata(client, 0, 5000) == (Brokers(1), 0);
    assert GetMetadata(client, 1, 5000) == (Brokers(1), 0);
    assert GetMetadata(client, 2, 5000) == (Brokers(3), 0);
    var third := Poll(client, 3, 10000, 2000, 1, 2);
    assert third == Run(Pass, [Step(8000, 5000, Brokers(3), 0)], 2000);
    var second := Poll(client, 3, 10000, 1000, 1, 1);
    assert second == Run(Pass, [Step(9000, 5000, Brokers(1), 1000)] + third.steps, 2000);
  }

  /** A request that uses up the whole budget is still followed by a full
      pause: with 1 s and a cluster that never answers in time, the check
      returns at 2000 ms. */
  lemma PauseAfterDeadline(client: AdminClient)
    requires forall n :: client.respond(n).latencyMs > 5000
    ensures Poll(client, 1, 1000, 0, 0, 0) == Run(Fail(Timeout(1, 0)), [Step(1000, 1000, MetadataError, 1000)], 2000)
  {
    assert GetMetadata(client, 0, 1000) == (MetadataError, 1000);
    assert Poll(client, 1, 1000, 2000, 0, 1) == Run(Fail(Timeout(1, 0)), [], 2000);
  }

  // ---------------------------------------------------------------------------
  // The pause as intended: capped by the time left after the request

  /** The polling loop with the pause capped by the time left once the answer
      has come, rather than by the time left before the request. */
  function PollCapped(client: AdminClient, minBrokers: int, timeoutMs: int, elapsedMs: int, brokerCount: nat, calls: nat): Run
    decreases timeoutMs - elapsedMs
  {
    var remainingMs := timeoutMs - elapsedMs;
    if remainingMs <= 0 then Run(Fail(Timeout(minBrokers, brokerCount)), [], elapsedMs)
    else
      var metadataTimeout := Min(DefaultMetadataTimeoutMs, remainingMs);
      var (metadata, took) := GetMetadata(client, calls, metadataTimeout);
      if Sufficient(metadata, minBrokers) then
        Run(Pass, [Step(remainingMs, metadataTimeout, metadata, 0)], elapsedMs + took)
      else
        var count := if metadata.Brokers? then metadata.count else brokerCount;
        var sleepDuration := Min(BrokerMetadataRequestBackoffMs, remainingMs - took);
        var rest := PollCapped(client, minBrokers, timeoutMs, elapsedMs + took + sleepDuration, count, calls + 1);
        Run(rest.outcome, [Step(remainingMs, metadataTimeout, metadata, sleepDuration)] + rest.steps, rest.elapsedMs)
  }

  /** With the pause capped after the request, a poll that starts before the
      deadline never returns after it, and a timeout comes exactly at it. */
  lemma {:induction false} CappedPollMeetsDeadline(client: AdminClient, minBrokers: int, timeoutMs: int, elapsedMs: int, brokerCount: nat, calls: nat)
    requires elapsedMs <= timeoutMs
    ensures var run := PollCapped(client, minBrokers, timeoutMs, elapsedMs, brokerCount, calls);
      && elapsedMs <= run.elapsedMs <= timeoutMs
      && (run.outcome.Fail? ==> run.elapsedMs == timeoutMs)
    decreases timeoutMs - elapsedMs
  {
    var remainingMs := timeoutMs - elapsedMs;
    if remainingMs > 0 {
      var metadataTimeout := Min(DefaultMetadataTimeoutMs, remainingMs);
      var (metadata, took) := GetMetadata(client, calls, metadataTimeout);
      if !Sufficient(metadata, minBrokers) {
        var count := if metadata.Brokers? then metadata.count else brokerCount;
        var sleepDuration := Min(BrokerMetadataRequestBackoffMs, remainingMs - took);
        CappedPollMeetsDeadline(client, minBrokers, timeoutMs, elapsedMs + took + sleepDuration, count, calls + 1);
      }
    }
  }

  /** Under the capped pause, the input of PauseAfterDeadline times out at the
      deadline itself. */
  lemma CappedPauseAtDeadline(client: AdminClient)
    requires forall n :: client.respond(n).latencyMs > 5000
    ensures PollCapped(client, 1, 1000, 0, 0, 0) == Run(Fail(Timeout(1, 0)), [Step(1000, 1000, MetadataError, 0)], 1000)
  {
    assert GetMetadata(client, 0, 1000) == (MetadataError, 1000);
    assert PollCapped(client, 1, 1000, 1000, 0, 1) == Run(Fail(Timeout(1, 0)), [], 1000);
  }
}
