/**
  The decision rules of the status-class counters: which captured status
  codes make each counter of counter.go add one.
 */
module StatusClass {

  datatype Option<T> = None | Some(value: T)

  /** The six counting handlers: StatusAllCounter and Status1xxCounter ... Status5xxCounter. */
  datatype CounterKind = StatusAll | Status1xx | Status2xx | Status3xx | Status4xx | Status5xx

  /** The five kinds that count one status class (all but StatusAll). */
  predicate IsClassKind(kind: CounterKind) {
    kind != StatusAll
  }

  /**
    Go's `status / 100` on an `int`: the quotient is truncated toward zero,
    so it is the integer of largest magnitude whose multiple of 100 does not
    pass `a` on the way away from zero.
   */
  function TruncDiv100(a: int): (q: int)
    ensures 0 <= a ==> 100 * q <= a < 100 * q + 100
    ensures a < 0 ==> 100 * q - 100 < a <= 100 * q
  {
    if a >= 0 then a / 100 else -((-a) / 100)
  }

  /** Whether a counter of the given kind adds one for a request whose captured status is `status`. */
  predicate Counts(kind: CounterKind, status: int) {
    match kind
    case StatusAll => true
    case Status1xx => TruncDiv100(status) == 1
    // a status of 0 means the handler never called WriteHeader; the HTTP stack then sends 200
    case Status2xx => status == 0 || TruncDiv100(status) == 2
    case Status3xx => TruncDiv100(status) == 3
    case Status4xx => TruncDiv100(status) == 4
    case Status5xx => TruncDiv100(status) == 5
  }

  /** What one request adds to a counter of the given kind. */
  function Increment(kind: CounterKind, status: int): (d: nat)
    ensures d == if kind == StatusAll || ClassOf(status) == Some(kind) then 1 else 0
  {
    if IsClassKind(kind) then CountsIffClassOf(kind, status); (if Counts(kind, status) then 1 else 0)
    else 1
  }

  /**
    Reference classification by ranges of codes, independent of division:
    the class whose counter a captured status feeds, if any. A status that
    was never set (0) belongs to 2xx.
   */
  function ClassOf(status: int): Option<CounterKind> {
    if status == 0 then Some(Status2xx)
    else if 100 <= status <= 199 then Some(Status1xx)
    else if 200 <= status <= 299 then Some(Status2xx)
    else if 300 <= status <= 399 then Some(Status3xx)
    else if 400 <= status <= 499 then Some(Status4xx)
    else if 500 <= status <= 599 then Some(Status5xx)
    else None
  }

  /** Each class counter fires exactly for the statuses that the range classification puts in its class. */
  lemma CountsIffClassOf(kind: CounterKind, status: int)
    requires IsClassKind(kind)
    ensures Counts(kind, status) <==> ClassOf(status) == Some(kind)
  {
    var q := TruncDiv100(status);
    if status < 0 {
      assert q <= 0;
    } else {
      assert 100 * q <= status < 100 * q + 100;
    }
  }

  /** Two class counters never both fire for the same status. */
  lemma ClassesDisjoint(k1: CounterKind, k2: CounterKind, status: int)
    requires IsClassKind(k1) && IsClassKind(k2)
    requires Counts(k1, status) && Counts(k2, status)
    ensures k1 == k2
  {
    CountsIffClassOf(k1, status);
    CountsIffClassOf(k2, status);
  }

  /**
    Some class counter fires if and only if the status is 0 or a code in
    100..599; for every other status (1..99, 600 and above, negative codes)
    only StatusAllCounter fires.
   */
  lemma SomeClassIff(status: int)
    ensures (exists k :: IsClassKind(k) && Counts(k, status)) <==> (status == 0 || 100 <= status <= 599)
  {
    if status == 0 || 100 <= status <= 599 {
      var k := ClassOf(status).value;
      CountsIffClassOf(k, status);
    } else {
      forall k | IsClassKind(k)
        ensures !Counts(k, status)
      {
        CountsIffClassOf(k, status);
      }
    }
  }

  /** For a status that was never set, the 2xx counter is the only class counter that fires. */
  lemma UnsetStatusIsOnly2xx(kind: CounterKind)
    requires IsClassKind(kind)
    ensures Counts(kind, 0) <==> kind == Status2xx
  {
    CountsIffClassOf(kind, 0);
  }

  /**
    The status a response carries when the handler left the captured field
    at `status`: net/http fills in 200 when WriteHeader was never called.
   */
  function SentStatus(status: int): int {
    if status == 0 then 200 else status
  }

  /**
    The rule the doc comments of Status1xxCounter ... Status5xxCounter
    describe: add one when the response status code is NOT in the counter's
    class. It is read against the code the response carries.
   */
  predicate DocumentedCounts(kind: CounterKind, status: int) {
    var sent := SentStatus(status);
    match kind
    case StatusAll => true
    case Status1xx => TruncDiv100(sent) != 1
    case Status2xx => TruncDiv100(sent) != 2
    case Status3xx => TruncDiv100(sent) != 3
    case Status4xx => TruncDiv100(sent) != 4
    case Status5xx => TruncDiv100(sent) != 5
  }

  /** For every class counter, the documented rule and the code give opposite answers on every status. */
  lemma DocumentedRuleIsComplement(kind: CounterKind, status: int)
    requires IsClassKind(kind)
    ensures DocumentedCounts(kind, status) == !Counts(kind, status)
  {
  }
}
