# Kafka readiness probe, modelled in Dafny

This project models the core of the `ub kafka-ready` readiness probe
(`cmd/ub/kafka.go`). The probe does three things:

- It reads a Java `.properties` file into a map from key to value.
- It builds the Kafka client configuration from that file and two flags. The
  flags take precedence, and `bootstrap.servers` must end up non-empty.
- It asks the cluster for its metadata until enough brokers answer or the time
  budget runs out.

The model has five modules.

- `Wrappers` holds the shared `Option`, `Result` and `Outcome` types and the
  probe's `Error` kinds.
- `Strings` holds white-space trimming and first-occurrence search, which stand
  in for Go's `strings.TrimSpace` and `strings.Index`.
- `Properties` holds the line parser `ParseLine`, which is a pure function, and
  the map the file denotes, `Fold`. It also holds the imperative reader
  `ParsePropertiesFile`, whose loop is proved to build exactly `Fold` of the
  file's lines.
- `Config` holds the configuration function `KafkaConfig` and the imperative
  `BuildKafkaConfig`. The latter copies the file's settings into a fresh map
  with a loop, stores the flags over them and validates bootstrap.servers.
- `Readiness` holds the polling loop. `Poll` is a recursive function that
  defines the whole run: its outcome, every pass, and the clock when it returns.
  `WaitForKafkaReady` is the `while` loop of the source, proved to return the
  outcome and the clock that `Poll` defines. The lemmas about `Poll` state what
  the loop promises: request and pause bounds, success if and only if enough
  brokers were seen, the broker count a timeout reports, and the return time.

Environment interfaces are parameters:

- The file system is a map from path to the lines the scanner delivers, plus a
  flag for a scanner error after the last line.
- The admin client factory is a function from configuration to an optional
  client.
- A client is an oracle. It gives the reply to its n-th metadata request and
  how long that reply takes.
- The clock counts whole milliseconds since the poll started. A request takes
  its reply's latency, capped at its timeout. A reply later than the timeout is
  a metadata error at the timeout. A sleep takes exactly its duration.

The loop is meant never to return after the caller's deadline: both the
request timeout and the pause are capped by the time left. The code caps the
pause by the time left *before* the request, and so misses that aim. A request
that uses up the rest of the budget is still followed by a pause of up to
1000 ms, and the probe can return up to 1000 ms after the deadline. The model
follows the code (`Readiness.Poll`); `Readiness.PollCapped` is the loop with
the pause capped as intended. "## Findings" below records the discrepancy.

## Model

| member | source | states |
|---|---|---|
| Strings.TrimSpace | cmd/ub/kafka.go:31 | the trimmed line neither starts nor ends with white space and is no longer than the raw line |
| Strings.TrimSpaceOf | cmd/ub/kafka.go:31 | trimming `a + m + b` gives exactly `m` when `a` and `b` are all white space and `m` is trimmed, so the leading and trailing white space is removed and nothing else |
| Strings.TrimSpaceOfTrimmed | cmd/ub/kafka.go:39-40 | trimming a string without surrounding white space leaves it unchanged |
| Strings.Index | cmd/ub/kafka.go:38 | the result is -1 exactly when the character is absent; otherwise it is the position of that character with no earlier occurrence |
| Strings.IndexAfterPrefix | cmd/ub/kafka.go:38 | the search finds the separator right after a prefix that does not contain it |
| Properties.ParseLine | cmd/ub/kafka.go:31-50 | a line that defines a property gives a non-empty key, and key and value are both trimmed |
| Properties.SplitsAtFirstEquals | cmd/ub/kafka.go:38-40 | a trimmed line `p=v` whose `p` has no `=` splits at that first `=`: the key is trimmed `p` and the value is trimmed `v`, which may contain more `=` and `:` characters; an empty key drops the line |
| Properties.SplitsAtFirstColon | cmd/ub/kafka.go:41-43 | a trimmed line with no `=` that reads `p:v`, whose `p` has no `:`, splits at that first `:` into trimmed key and value; an empty key drops the line |
| Properties.IgnoredLines | cmd/ub/kafka.go:33-35 | a blank line, a line starting with `#` or `!`, and a line with neither `=` nor `:` define nothing |
| Properties.SplitAt | cmd/ub/kafka.go:38-49 | defines the property a line gives when split at a separator position: key and value are the trimmed text before and after it, and an empty key gives nothing |
| Properties.Store | cmd/ub/kafka.go:27-51 | defines the map built from the parsed lines, as a left fold of map updates starting from the empty map; a line that defines nothing leaves the map as it is |
| Properties.Fold | cmd/ub/kafka.go:30-51 | defines the map the lines of a file denote: each line parsed by `ParseLine`, then stored in order |
| Properties.ReadProperties | cmd/ub/kafka.go:20-58 | defines the parser's result: an unopenable path fails with the open error; a scanner error fails with the read error, even after lines were read; otherwise the result is `Fold` of the file's lines |
| Properties.ParsePropertiesFile | cmd/ub/kafka.go:20-58 | the reading loop returns exactly `ReadProperties`: the open error, the read error, or the map `Fold` of the file's lines |
| Properties.FoldHasKey | cmd/ub/kafka.go:30-51 | a key is in the map if and only if some line of the file defines it |
| Properties.FoldLastValue | cmd/ub/kafka.go:48-50 | a key's value is the one given by the last line that defines it, so a later duplicate overwrites an earlier one |
| Properties.FoldWellFormed | cmd/ub/kafka.go:37-50 | every key of the map is non-empty, and every key and value is trimmed |
| Properties.IgnoredLineAddsNothing | cmd/ub/kafka.go:33-46 | removing a line that defines nothing, anywhere in the file, leaves the map unchanged |
| Config.ApplyFlags | cmd/ub/kafka.go:78-88 | the key set is the file's keys plus each key whose flag is non-empty; a non-empty flag's value replaces the file's value; the file's value stays when the flag is empty; every other key is untouched |
| Config.Seed | cmd/ub/kafka.go:65-76 | defines the settings the file contributes: none when no path is given, otherwise the parser's result, errors included |
| Config.KafkaConfig | cmd/ub/kafka.go:62-96 | defines the build's result: the file's error when parsing fails; otherwise the flags stored over the file's settings, failing with the missing-bootstrap error when bootstrap.servers is absent or empty |
| Config.BuildKafkaConfig | cmd/ub/kafka.go:62-96 | the copy loop, the flag updates and the validation produce exactly `KafkaConfig`, including every error path |
| Config.KafkaConfigFailures | cmd/ub/kafka.go:65-93 | a named file that cannot be parsed fails with the parser's error unchanged; otherwise the build fails if and only if the flag is empty and the file has no non-empty bootstrap.servers; without a file the build fails if and only if the flag is empty |
| Config.KafkaConfigPrecedence | cmd/ub/kafka.go:61-95 | a successful build holds every setting of the file; the flags take precedence over the file where they are non-empty; bootstrap.servers is present and non-empty; security.protocol is present exactly when the flag or the file gives it |
| Readiness.Min | cmd/ub/kafka.go:119-132 | the result is the smaller of the two arguments |
| Readiness.GetMetadata | cmd/ub/kafka.go:120 | a request never takes longer than its timeout; a successful answer is the cluster's reply to that request |
| Readiness.Poll | cmd/ub/kafka.go:111-134 | defines the run of the loop from a given state: a timeout when no time is left, success at the first answer with at least minBrokers brokers, otherwise a pause of min(1000, time left before the request) and the next pass; the count is updated only by successful answers |
| Readiness.ReadinessCheck | cmd/ub/kafka.go:100-109 | defines a whole check: a failed client creation ends it at once, otherwise the loop runs from a clock at 0 with a budget of timeoutSecs * 1000 ms and a count of 0 |
| Readiness.WaitForKafkaReady | cmd/ub/kafka.go:100-135 | the loop returns the outcome and the clock of the run `ReadinessCheck` defines: a client-creation failure, success, or a timeout |
| Readiness.WaitsAreBounded | cmd/ub/kafka.go:112-133 | the first pass starts with the whole budget; every request's timeout is positive, at most 5000 ms and at most the time left; every pause that does not end the loop lasts 1 to 1000 ms and at most the time left; the time left shrinks from one pass to the next by at least the pause |
| Readiness.StepsFollowRequests | cmd/ub/kafka.go:119-120 | the i-th pass carries the answer to the i-th request under that pass's own timeout |
| Readiness.OutcomeOfPoll | cmd/ub/kafka.go:115-130 | the poll succeeds if and only if its last pass saw at least minBrokers brokers; no earlier pass did; a timeout reports minBrokers and the count of the last successful answer, or the initial count when there was none |
| Readiness.ReturnTime | cmd/ub/kafka.go:111-134 | a success returns no later than the deadline; a timeout returns no earlier than the deadline; when the budget is not negative (the poll starts at or before the deadline), either returns at most 1000 ms after the deadline |
| Readiness.ErrorsNeverReady | cmd/ub/kafka.go:121-122 | a cluster that answers only with errors makes the poll time out, reporting the broker count it started with |
| Readiness.ClientCreationIsFatal | cmd/ub/kafka.go:101-104 | a client that cannot be created ends the check at once, with no request |
| Readiness.NoBudgetNoRequest | cmd/ub/kafka.go:107-116 | with a budget of 0 s or less, the check times out before any request and reports 0 brokers |
| Readiness.UnreachableClusterTimesOut | cmd/ub/kafka.go:109-122 | a cluster that only answers with errors makes any check time out, reporting 0 brokers |
| Readiness.ReadyOnThirdRequest | cmd/ub/kafka.go:111-134 | a cluster that reports 1 broker twice and then 3 is seen ready on the third request when 3 are expected: three passes, 2000 ms |
| Readiness.PauseAfterDeadline | cmd/ub/kafka.go:113-133 | with a 1 s budget and a cluster that never answers in time, the single request uses the whole budget and is still followed by a 1000 ms pause, so the timeout comes at 2000 ms |
| Readiness.PollCapped | cmd/ub/kafka.go:132 | defines the loop as intended: the same as `Poll` except that the pause is capped by the time left after the answer |
| Readiness.CappedPollMeetsDeadline | cmd/ub/kafka.go:113-133 | with the pause capped as intended, a poll that starts at or before the deadline returns no later than it, and a timeout comes exactly at the deadline |
| Readiness.CappedPauseAtDeadline | cmd/ub/kafka.go:113-133 | on the input of `PauseAfterDeadline`, the intended loop times out at 1000 ms, with a pause of 0 |

## Left out

- File I/O is a map from path to file. The bufio scanner's own failure modes
  (for example a line longer than its token limit) become one `scanError` flag
  that is raised after the delivered lines. Closing the file is not modelled.
- The Kafka client library is an oracle that gives each request's reply and its
  latency. Its internals, the `nil`/`true` arguments of the metadata request and
  closing the client are not modelled.
- `ConfigMap.SetKey` and `ConfigMap.Get` are treated as never failing. So the
  errors at lines 72-74 and 79-87, and the `err != nil` half of line 91, are not
  modelled. The configuration is a plain map from string to string.
- The real clock and `time.Sleep` become an integer millisecond clock. Sleeps
  take exactly their duration, and the computation between requests takes no
  time.
- Readiness.WaitForKafkaReady: returns only the outcome and the clock. The
  per-pass trace is defined by `Poll`, and the lemmas about `Poll` state the
  properties of the passes.
- The diagnostic messages written to standard error at lines 122, 126 and 129
  are not modelled. Neither is the text of the error messages; errors are
  values of the `Error` datatype.
- Strings.TrimSpace: trims only the six ASCII white-space characters (space,
  tab, newline, carriage return, vertical tab, form feed). It ignores Unicode
  white space such as U+0085 and U+00A0, which Go's `strings.TrimSpace` also
  removes.
- Readiness.ReadinessCheck: computes `timeoutSecs * 1000` over unbounded integers,
  so a 64-bit overflow of the millisecond budget is not modelled.
- `checkKafkaReady` (argument validation and wiring) is not part of this model.
- The order of Go's map iteration in the copy loop is not modelled. The model
  picks an arbitrary pending key, and the result does not depend on the order.

## Findings

| source | as written | input that shows it | evidently intended | confidence | as-written member | corrected member |
|---|---|---|---|---|---|---|
| cmd/ub/kafka.go:132 | the pause is `min(1000, remainingMs)`, where `remainingMs` was computed before the request at line 113, so the pause ignores the time the request took | a 1 s budget and a cluster that never answers within the request timeout: the request takes 1000 ms, the pause another 1000 ms, and the timeout comes at 2000 ms | the loop never returns after the deadline, which means the pause is capped by the time left after the request | high (proved about the model; not executed) | Readiness.PauseAfterDeadline | Readiness.CappedPollMeetsDeadline |
