# Status-code counters of gohm, modelled in Dafny

gohm is a library of HTTP middleware for Go. This project models its
status-code counters in `counter.go`.

- **counterHandler.** A response writer that embeds the real
  `http.ResponseWriter` and keeps an `int` field `status`, which starts at 0.
  It overrides only `WriteHeader`. That method stores the code and then
  forwards it to the embedded writer. `Write` and `Header` are the embedded
  writer's own methods.
- **StatusAllCounter and Status1xxCounter … Status5xxCounter.** Each one
  wraps the writer of a request in a fresh counterHandler and runs the inner
  handler. Afterwards it adds one to an `expvar.Int`, using a rule on the
  captured status:
  - StatusAllCounter always adds one.
  - The N-xx counter adds one when `status/100 == N`.
  - The 2xx counter also adds one when `status == 0`, which means the handler
    never called `WriteHeader`.

Files:

- `status.dfy` (module `StatusClass`) holds the decision rules as pure
  predicates. Go's truncating `/` is written out as `TruncDiv100`, so negative
  codes are classified as Go classifies them. `ClassOf` is a range-based
  classification that does not use division, and the lemmas tie the two
  together.
- `response.dfy` (module `Response`) holds the wrapper as the class
  `CounterHandler`. The wrapped writer is the class `Sink`, which only records
  the calls it receives. A list of `WriterCall`s stands for what the inner
  handler does to its writer. `CapturedStatus` gives the value of the `status`
  field after such a list. The lemmas show that this value is the code of the
  last `WriteHeader` call, or 0 if there was none.
- `counter.dfy` (module `Counting`) holds the expvar counter as the class
  `Counter` and one request through a counting handler as the method `Serve`.
  The inner handler is a `Handler`: the calls it makes on its writer and
  whether it then panics. `Serve` builds a fresh wrapper, runs the handler's
  calls through it in a loop, and then, unless the handler panicked, applies
  the rule for its `CounterKind`. The loop's frame
  does not include the counter, so the counter cannot change before the inner
  handler has returned.

## Documentation and code disagree

The doc comments of Status1xxCounter … Status5xxCounter (counter.go:33, 49,
67, 83, 99) say that the counter goes up when the status "is not" in its
class. The code (counter.go:42, 60, 76, 92, 108) counts when the status IS
in the class. This matches the function names. The model follows the code.

`StatusClass.DocumentedCounts` states the documented rule.
The documented rule is applied to the status code the response carries,
which is 200 when the handler never called `WriteHeader` (counter.go:58-59).
`StatusClass.DocumentedRuleIsComplement` shows that for every class
counter the two rules give opposite answers on every status.

## Model

| member | source | states |
|---|---|---|
| `StatusClass.TruncDiv100` | counter.go:42 | `status/100` is Go's quotient truncated toward zero: for non-negative codes `100q <= status < 100q + 100`, for negative codes `100q - 100 < status <= 100q` |
| `StatusClass.Counts` | counter.go:28 | the decision rule of each counter: StatusAllCounter always, the N-xx counter when `status/100 == N`, the 2xx counter also when `status == 0` (lines 28, 42, 60, 76, 92, 108); its meaning is stated by `StatusClass.CountsIffClassOf` |
| `StatusClass.Increment` | counter.go:24-112 | a request adds 1 to a counter exactly when the counter is StatusAllCounter or the range classification puts the status in the counter's class, and 0 otherwise |
| `StatusClass.CountsIffClassOf` | counter.go:38-112 | for each of the five class counters, its test on `status/100` (plus `status == 0` for 2xx) holds exactly when the status lies in that class's range of codes (100-199 … 500-599, or 0 for 2xx), in both directions |
| `StatusClass.ClassesDisjoint` | counter.go:38-112 | no status makes two different class counters add one |
| `StatusClass.SomeClassIff` | counter.go:38-112 | some class counter adds one if and only if the status is 0 or in 100..599; codes 1..99, 600 and above, and negative codes reach only StatusAllCounter |
| `StatusClass.UnsetStatusIsOnly2xx` | counter.go:54-64 | a status that was never set (0) is counted by the 2xx counter and by no other class counter |
| `StatusClass.DocumentedRuleIsComplement` | counter.go:32-44 | the "not in class" rule of the doc comments, applied to the code the response carries (200 when never set), and the rule of the code give opposite answers for every class counter and every status |
| `Response.CounterHandler.constructor` | counter.go:26 | a fresh wrapper wraps the given writer and has `status == 0` |
| `Response.CounterHandler.WriteHeader` | counter.go:13-16 | afterwards `status` is the given code, and exactly one `WriteHeader` call with the same code has been appended to the wrapped writer's log |
| `Response.CounterHandler.Write` | counter.go:8-11 | `Write` is passed straight to the wrapped writer unchanged and leaves `status` as it was |
| `Response.CapturedStatus` | counter.go:13-16 | the `status` field after the handler's calls on a fresh wrapper; it is 0 or a code the handler passed to `WriteHeader`, never an invented one |
| `Response.CapturedIsLastHeaderCode` | counter.go:13-16 | after a handler's calls, the captured status is the code of the last `WriteHeader` call, or 0 if there was none |
| `Response.BodyOnlyLeavesStatusUnset` | counter.go:8-16 | a handler that only writes a body makes no `WriteHeader` call and leaves the status at 0 |
| `Response.CapturedStatusAppend` | counter.go:13-16 | after calls `a` then `b`, the captured status is the one `b` set, or the one `a` left if `b` made no `WriteHeader` call |
| `Response.LastWriteHeaderWins` | counter.go:13-16 | after `WriteHeader(code)` followed by any number of body writes, the captured status is `code`, whatever came before |
| `Counting.Serve` | counter.go:24-112 | the wrapped writer receives exactly the handler's calls, in order, with nothing added. If the handler returns, the counter grows by the rule's increment for the captured status, so by 0 or 1, and by exactly 1 for StatusAllCounter. If it panics, the panic is reported and no counter changes |
| `Counting.BodyOnlyRequestCountsAs2xx` | counter.go:54-64 | a request that only writes a body adds one to the 2xx counter and to StatusAllCounter, and nothing to the 1xx, 3xx, 4xx or 5xx counters |
| `Counting.ExactlyOneClassCounts` | counter.go:38-112 | when the last `WriteHeader` code is in 100..599, a class counter adds one exactly when it is the counter of that code's class |
| `Counting.Counter.Add` | counter.go:28 | `counter.Add(1)` adds its argument to the counter's value |

## Left out

- `Header()`: the embedded writer's header map is passed through and has no logic in `counter.go`, so the model has no header map.
- Counting.Counter: an `expvar.Int` is an atomic 64-bit integer. The model uses a plain, unbounded integer with no concurrency. This drops atomic updates from concurrent requests and overflow past 2^63 - 1.
- Status codes are unbounded integers in the model, not Go's 64-bit `int`. Dividing by 100 never overflows, so the classification is the same for every value a Go `int` can hold.
- The wrapped `http.ResponseWriter` is an abstract sink that records calls. The model does not include what a real writer does with them: the default 200 status, rejecting invalid codes, and sending bytes to the client.
- The inner handler is modelled as a fixed list of writer calls that either returns or panics at the end. Anything else it does, such as reading the request, is not modelled.
- Counting.Serve: a panic of a real wrapped writer (net/http panics on a code outside 100..999 after counter.go:14 has stored it) is covered only as a handler that panics after its calls. The model does not say which calls the writer logged before panicking.
- net/http keeps the first `WriteHeader` code and ignores later ones, but counterHandler.status keeps the last (counter.go:14), so the counters count the last code, not the one sent. The real writer is not modelled, so this difference is not stated as a lemma.
- `StatusAllCounter` … `Status5xxCounter` return closures. The model represents each one by the `CounterKind` passed to `Counting.Serve`, where one call of `Serve` is one call of the closure.
- `v2/prefix.go` is not part of this model. It delegates to `ShiftPath`, whose source is not available.
- Compression negotiation, the compressing writer and the panic guard are not part of this model. Their implementations are not available.
- The `Status*CounterHandler` functions that `counterHandler_test.go` exercises are not part of this model. They are not in `counter.go`, and their tests assert the opposite, "not in class" rule.
