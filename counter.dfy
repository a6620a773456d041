/**
  The counting handlers of counter.go: each serves one request through a
  fresh counterHandler, then adds one to its counter when its decision rule
  accepts the captured status.
 */
module Counting {
  import opened StatusClass
  import opened Response

  /** The shared counter (an expvar.Int), as a plain integer. */
  class Counter {
    var value: int

    constructor (initial: int)
      ensures value == initial
    {
      value := initial;
    }

    method Add(delta: int)
      modifies this
      ensures value == old(value) + delta
    {
      value := value + delta;
    }
  }

  /**
    The inner handler of one request: the calls it makes on the writer it
    receives, and whether it then panics instead of returning.
   */
  datatype Handler = Handler(calls: seq<WriterCall>, panics: bool)

  /**
    One request through the handler returned by StatusAllCounter (kind
    StatusAll) or StatusNxxCounter (kind StatusNxx). `panicked` reports a
    panic of the inner handler, which unwinds out of the request before the
    counter is updated.
   */
  method Serve(kind: CounterKind, counter: Counter, w: Sink, next: Handler) returns (panicked: bool)
    modifies counter, w
    ensures panicked == next.panics
    ensures w.log == old(w.log) + next.calls
    ensures counter.value == old(counter.value) + (if panicked then 0 else Increment(kind, CapturedStatus(next.calls)))
    ensures old(counter.value) <= counter.value <= old(counter.value) + 1
    ensures kind == StatusAll ==> counter.value == old(counter.value) + (if panicked then 0 else 1)
  {
    var ch := new CounterHandler(w);
    var calls := next.calls;
    // next.ServeHTTP(ch, r): the counter is outside this loop's frame
    for i := 0 to |calls|
      modifies ch, w
      invariant ch.inner == w
      invariant ch.status == CapturedStatus(calls[..i])
      invariant w.log == old(w.log) + calls[..i]
    {
      assert calls[..i + 1][..i] == calls[..i];
      match calls[i]
      case WriteHeaderCall(code) => ch.WriteHeader(code);
      case WriteCall(data) => ch.Write(data);
    }
    assert calls[..|calls|] == calls;
    panicked := next.panics;
    if panicked {
      return;
    }
    if Counts(kind, ch.status) {
      counter.Add(1);
    }
  }

  /** One request that writes a body without setting a status adds one to the 2xx and "all" counters only. */
  lemma BodyOnlyRequestCountsAs2xx(kind: CounterKind, next: seq<WriterCall>)
    requires forall i :: 0 <= i < |next| ==> next[i].WriteCall?
    ensures Increment(kind, CapturedStatus(next)) == if kind == StatusAll || kind == Status2xx then 1 else 0
  {
    BodyOnlyLeavesStatusUnset(next);
    if IsClassKind(kind) {
      UnsetStatusIsOnly2xx(kind);
    }
  }

  /**
    For a request whose last WriteHeader call set a code in 100..599, exactly
    one class counter adds one: the counter of that code's class.
   */
  lemma ExactlyOneClassCounts(next: seq<WriterCall>, kind: CounterKind)
    requires IsClassKind(kind)
    requires var codes := HeaderCodes(next);
             codes != [] && 100 <= codes[|codes| - 1] <= 599
    ensures var code := HeaderCodes(next)[|HeaderCodes(next)| - 1];
            Increment(kind, CapturedStatus(next)) == if ClassOf(code) == Some(kind) then 1 else 0
  {
    CapturedIsLastHeaderCode(next);
    CountsIffClassOf(kind, CapturedStatus(next));
  }
}
