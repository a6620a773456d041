/**
  The status-capturing response writer of counter.go (counterHandler) and
  the writer it wraps, seen as a sink that logs the calls it receives.
 */
module Response {

  newtype byte = x: int | 0 <= x < 256

  /** A call a handler makes on its http.ResponseWriter. */
  datatype WriterCall = WriteHeaderCall(code: int) | WriteCall(data: seq<byte>)

  /**
    The wrapped http.ResponseWriter, abstracted as a sink: what it does with
    the calls is not modelled, only that it received them and in what order.
   */
  class Sink {
    var log: seq<WriterCall>

    constructor ()
      ensures log == []
    {
      log := [];
    }

    method WriteHeader(code: int)
      modifies this
      ensures log == old(log) + [WriteHeaderCall(code)]
    {
      log := log + [WriteHeaderCall(code)];
    }

    method Write(data: seq<byte>)
      modifies this
      ensures log == old(log) + [WriteCall(data)]
    {
      log := log + [WriteCall(data)];
    }
  }

  /**
    counterHandler: embeds the wrapped writer and remembers the status code
    passed to WriteHeader. Only WriteHeader is overridden; Write goes
    straight to the embedded writer.
   */
  class CounterHandler {
    const inner: Sink
    var status: int

    /** `&counterHandler{ResponseWriter: w}`: status is Go's zero value. */
    constructor (w: Sink)
      ensures inner == w && status == 0
    {
      inner := w;
      status := 0;
    }

    /** Records the code, then forwards the same code to the wrapped writer. */
    method WriteHeader(code: int)
      modifies this, inner
      ensures status == code
      ensures inner.log == old(inner.log) + [WriteHeaderCall(code)]
    {
      status := code;
      inner.WriteHeader(code);
    }

    /** The embedded writer's Write, promoted unchanged: status is not touched. */
    method Write(data: seq<byte>)
      modifies inner
      ensures status == old(status)
      ensures inner.log == old(inner.log) + [WriteCall(data)]
    {
      inner.Write(data);
    }
  }

  /** The status field of a fresh counterHandler after the handler made `calls` on it, one after another. */
  function CapturedStatus(calls: seq<WriterCall>): (s: int)
    ensures s == 0 || exists i :: 0 <= i < |calls| && calls[i] == WriteHeaderCall(s)
  {
    if calls == [] then 0
    else match calls[|calls| - 1]
      case WriteHeaderCall(code) => code
      case WriteCall(_) => CapturedStatus(calls[..|calls| - 1])
  }

  /** The codes of the WriteHeader calls among `calls`, in call order. */
  function HeaderCodes(calls: seq<WriterCall>): (codes: seq<int>) {
    if calls == [] then []
    else (if calls[0].WriteHeaderCall? then [calls[0].code] else []) + HeaderCodes(calls[1..])
  }

  lemma {:induction false} HeaderCodesAppend(a: seq<WriterCall>, b: seq<WriterCall>)
    ensures HeaderCodes(a + b) == HeaderCodes(a) + HeaderCodes(b)
  {
    if a == [] {
      assert a + b == b;
    } else {
      var head := if a[0].WriteHeaderCall? then [a[0].code] else [];
      assert (a + b)[0] == a[0];
      assert (a + b)[1..] == a[1..] + b;
      HeaderCodesAppend(a[1..], b);
      assert HeaderCodes(a + b) == head + (HeaderCodes(a[1..]) + HeaderCodes(b));
    }
  }

  /**
    The captured status is the code of the LAST WriteHeader call, and 0 when
    the handler never called WriteHeader.
   */
  lemma {:induction false} CapturedIsLastHeaderCode(calls: seq<WriterCall>)
    ensures var codes := HeaderCodes(calls);
            CapturedStatus(calls) == if codes == [] then 0 else codes[|codes| - 1]
  {
    if calls != [] {
      var init, last := calls[..|calls| - 1], calls[|calls| - 1];
      assert calls == init + [last];
      HeaderCodesAppend(init, [last]);
      assert HeaderCodes([last]) == if last.WriteHeaderCall? then [last.code] else [];
      CapturedIsLastHeaderCode(init);
    }
  }

  /** A handler that only writes a body leaves the captured status at 0. */
  lemma {:induction false} BodyOnlyLeavesStatusUnset(calls: seq<WriterCall>)
    requires forall i :: 0 <= i < |calls| ==> calls[i].WriteCall?
    ensures HeaderCodes(calls) == []
    ensures CapturedStatus(calls) == 0
  {
    if calls != [] {
      BodyOnlyLeavesStatusUnset(calls[1..]);
    }
    CapturedIsLastHeaderCode(calls);
  }

  /**
    Running `a` then `b`: the status captured is the one `b` sets, or the one
    `a` left when `b` never calls WriteHeader. Body writes never change it.
   */
  lemma {:induction false} CapturedStatusAppend(a: seq<WriterCall>, b: seq<WriterCall>)
    ensures CapturedStatus(a + b) == if HeaderCodes(b) == [] then CapturedStatus(a) else CapturedStatus(b)
  {
    if b == [] {
      assert a + b == a;
    } else {
      var init, last := b[..|b| - 1], b[|b| - 1];
      assert (a + b)[..|a + b| - 1] == a + init;
      assert b == init + [last];
      HeaderCodesAppend(init, [last]);
      assert HeaderCodes([last]) == if last.WriteHeaderCall? then [last.code] else [];
      CapturedStatusAppend(a, init);
    }
  }

  /** The case of a handler that calls WriteHeader(code) and makes no further WriteHeader call, only body writes. */
  lemma LastWriteHeaderWins(calls: seq<WriterCall>, code: int, body: seq<seq<byte>>)
    ensures CapturedStatus(calls + [WriteHeaderCall(code)] + seq(|body|, i requires 0 <= i < |body| => WriteCall(body[i]))) == code
  {
    var tail := seq(|body|, i requires 0 <= i < |body| => WriteCall(body[i]));
    BodyOnlyLeavesStatusUnset(tail);
    CapturedStatusAppend(calls + [WriteHeaderCall(code)], tail);
    assert (calls + [WriteHeaderCall(code)])[..|calls|] == calls;
  }
}
