/**
 * The forked test runner around the protocol: the streams that turn a
 * test's `System.out` / `System.err` output into `Log` messages one line at
 * a time, the event handler that tallies results and reports each test,
 * the way a suite's abnormal end is reported, and the command loop.
 *
 * Everything the runner sends goes through one `Channel`, the list of
 * protocol lines written so far. Running a suite and dumping the threads
 * call into test frameworks and the JVM; the command loop records them as
 * actions.
 */
module TestRunner {
  import opened KotlinStd
  import opened TestProtocol
  import opened TestProtocolArray
  import opened TestProtocolMessages

  /** The protocol output: the lines sent so far, in order. */
  class Channel {
    var lines: seq<JString>

    constructor()
      ensures lines == []
    {
      lines := [];
    }

    /** `send`: one message per line. */
    method Send(message: JString)
      modifies this
      ensures lines == old(lines) + [message]
    {
      lines := lines + [message];
    }
  }

  // ---------------------------------------------------------------------------
  // Captured output
  // ---------------------------------------------------------------------------

  /** The level of a stream's lines: `error` for the stream named `stderr`, `info` for any other. */
  function Level(name: JString): JString {
    if name == J("stderr") then J("error") else J("info")
  }

  function LogLine(name: JString, text: JString): JString {
    EncodeLog(Some(Level(name)), Some(text))
  }

  /** What a flush sends: nothing for an empty buffer, one `Log` otherwise. */
  function Flushed(name: JString, buffer: JString): seq<JString> {
    if buffer == [] then [] else [LogLine(name, buffer)]
  }

  function LogLines(name: JString, texts: seq<JString>): (r: seq<JString>)
    ensures |r| == |texts|
    ensures forall i | 0 <= i < |texts| :: r[i] == LogLine(name, texts[i])
  {
    if texts == [] then [] else [LogLine(name, texts[0])] + LogLines(name, texts[1..])
  }

  lemma {:induction false} LogLinesAppend(name: JString, a: seq<JString>, b: seq<JString>)
    ensures LogLines(name, a + b) == LogLines(name, a) + LogLines(name, b)
  {
    if a != [] {
      assert (a + b)[0] == a[0] && (a + b)[1..] == a[1..] + b;
      LogLinesAppend(name, a[1..], b);
    } else {
      assert a + b == b;
    }
  }

  /** The buffer left and the lines completed by writing some characters. */
  datatype Capture = Capture(pending: JString, lines: seq<JString>)

  /** Writing `s` onto `buffer` one character at a time: a newline completes the buffer, anything else is appended. */
  function Feed(buffer: JString, s: JString): Capture
    decreases |s|
  {
    if s == [] then Capture(buffer, [])
    else if s[0] == LF then
      var r := Feed([], s[1..]);
      Capture(r.pending, (if buffer == [] then [] else [buffer]) + r.lines)
    else Feed(buffer + [s[0]], s[1..])
  }

  /** `CapturingOutputStream`. */
  class CapturingOutputStream {
    const name: JString
    const out: Channel
    var buffer: JString

    constructor(name: JString, out: Channel)
      ensures this.name == name && this.out == out && buffer == []
    {
      this.name := name;
      this.out := out;
      buffer := [];
    }

    /** `flush`: a non-empty buffer goes out as one `Log` message and is emptied. */
    method Flush()
      modifies this, out
      ensures buffer == []
      ensures out.lines == old(out.lines) + Flushed(name, old(buffer))
    {
      if |buffer| > 0 {
        out.Send(EncodeLog(Some(Level(name)), Some(buffer)));
        buffer := [];
      }
    }

    /** `write(int)`: a newline flushes; any other value is appended as the character `(char) b`, its low 16 bits. */
    method Write(b: int)
      modifies this, out
      ensures b == LF as int ==> buffer == [] && out.lines == old(out.lines) + Flushed(name, old(buffer))
      ensures b != LF as int ==> buffer == old(buffer) + [(b % 0x1_0000) as JChar] && out.lines == old(out.lines)
    {
      if b == LF as int {
        Flush();
      } else {
        buffer := buffer + [(b % 0x1_0000) as JChar];
      }
    }

    /** `write(byte[], int, int)` on the decoded characters `s`. */
    method WriteText(s: JString)
      modifies this, out
      ensures buffer == Feed(old(buffer), s).pending
      ensures out.lines == old(out.lines) + LogLines(name, Feed(old(buffer), s).lines)
    {
      ghost var b0, lines0 := buffer, out.lines;
      for i := 0 to |s|
        invariant Feed(buffer, s[i..]).pending == Feed(b0, s).pending
        invariant out.lines + LogLines(name, Feed(buffer, s[i..]).lines) == lines0 + LogLines(name, Feed(b0, s).lines)
      {
        var c := s[i];
        if c == LF {
          NewlineStep(name, buffer, out.lines, s, i);
          Flush();
        } else {
          FeedStep(buffer, s, i);
          buffer := buffer + [c];
        }
      }
      assert s[|s|..] == [];
    }
  }

  lemma FeedStep(buffer: JString, s: JString, i: nat)
    requires i < |s|
    ensures s[i] == LF ==>
      Feed(buffer, s[i..]) == Capture(Feed([], s[i + 1..]).pending, (if buffer == [] then [] else [buffer]) + Feed([], s[i + 1..]).lines)
    ensures s[i] != LF ==> Feed(buffer, s[i..]) == Feed(buffer + [s[i]], s[i + 1..])
  {
    assert s[i..][0] == s[i] && s[i..][1..] == s[i + 1..];
  }

  /** At a newline the buffer is flushed and the rest is fed onto an empty buffer. */
  lemma NewlineStep(name: JString, buffer: JString, sent: seq<JString>, s: JString, i: nat)
    requires i < |s| && s[i] == LF
    ensures Feed([], s[i + 1..]).pending == Feed(buffer, s[i..]).pending
    ensures (sent + Flushed(name, buffer)) + LogLines(name, Feed([], s[i + 1..]).lines)
         == sent + LogLines(name, Feed(buffer, s[i..]).lines)
  {
    FeedStep(buffer, s, i);
    var first: seq<JString> := if buffer == [] then [] else [buffer];
    var rest := Feed([], s[i + 1..]).lines;
    assert Feed(buffer, s[i..]).lines == first + rest;
    LogLinesAppend(name, first, rest);
    FlushedLines(name, buffer);
    LinesAssoc(sent, Flushed(name, buffer), LogLines(name, rest));
  }

  lemma FlushedLines(name: JString, buffer: JString)
    ensures LogLines(name, if buffer == [] then [] else [buffer]) == Flushed(name, buffer)
  {
  }

  lemma LinesAssoc(a: seq<JString>, b: seq<JString>, c: seq<JString>)
    ensures (a + b) + c == a + (b + c)
  {
  }

  /** Every line sent is non-empty and holds no newline, and the buffer never holds one. */
  lemma {:induction false} FeedLines(buffer: JString, s: JString)
    requires LF !in buffer
    ensures LF !in Feed(buffer, s).pending
    ensures forall l | l in Feed(buffer, s).lines :: l != [] && LF !in l
    decreases |s|
  {
    if s != [] {
      if s[0] == LF {
        FeedLines([], s[1..]);
      } else {
        FeedLines(buffer + [s[0]], s[1..]);
      }
    }
  }

  // The lines of a text, the reference for what the stream sends.

  /** The pieces of `t` between newlines (one more than the newlines). */
  function SplitLines(t: JString): (r: seq<JString>)
    ensures |r| >= 1
  {
    if t == [] then [[]]
    else
      var r := SplitLines(t[1..]);
      if t[0] == LF then [[]] + r else [[t[0]] + r[0]] + r[1..]
  }

  function NonEmpty(xs: seq<JString>): seq<JString> {
    if xs == [] then [] else (if xs[0] == [] then [] else [xs[0]]) + NonEmpty(xs[1..])
  }

  lemma {:induction false} SplitPlain(b: JString)
    requires LF !in b
    ensures SplitLines(b) == [b]
  {
    if b != [] {
      SplitPlain(b[1..]);
      assert [b[0]] + b[1..] == b;
    }
  }

  lemma {:induction false} SplitAfter(b: JString, t: JString)
    requires LF !in b
    ensures SplitLines(b + ([LF] + t)) == [b] + SplitLines(t)
  {
    if b == [] {
      assert b + ([LF] + t) == [LF] + t;
      assert ([LF] + t)[1..] == t;
    } else {
      var u := b + ([LF] + t);
      assert u[0] == b[0] && u[1..] == b[1..] + ([LF] + t);
      SplitAfter(b[1..], t);
      assert [b[0]] + b[1..] == b;
    }
  }

  /**
   * The stream sends the non-empty lines of everything written, the last
   * (unterminated) piece staying in the buffer.
   */
  lemma {:induction false} FeedSplit(buffer: JString, s: JString)
    requires LF !in buffer
    ensures var parts := SplitLines(buffer + s);
      Feed(buffer, s) == Capture(parts[|parts| - 1], NonEmpty(parts[..|parts| - 1]))
    decreases |s|
  {
    if s == [] {
      assert buffer + s == buffer;
      SplitPlain(buffer);
    } else if s[0] == LF {
      var t := s[1..];
      FeedSplit([], t);
      assert [] + t == t;
      assert buffer + s == buffer + ([LF] + t);
      SplitAfter(buffer, t);
      var parts := SplitLines(t);
      var all := [buffer] + parts;
      assert all[|all| - 1] == parts[|parts| - 1];
      assert all[..|all| - 1] == [buffer] + parts[..|parts| - 1];
      assert NonEmpty([buffer] + parts[..|parts| - 1])
          == (if buffer == [] then [] else [buffer]) + NonEmpty(parts[..|parts| - 1]) by {
        var x := [buffer] + parts[..|parts| - 1];
        assert x[0] == buffer && x[1..] == parts[..|parts| - 1];
      }
    } else {
      assert LF !in buffer + [s[0]];
      FeedSplit(buffer + [s[0]], s[1..]);
      assert (buffer + [s[0]]) + s[1..] == buffer + s;
    }
  }

  // ---------------------------------------------------------------------------
  // Test events
  // ---------------------------------------------------------------------------

  /** `sbt.testing.Status`. */
  datatype Status = Success | Failure | Error | Skipped | Ignored | Canceled | Pending

  /** The status text of `TestFinished`. */
  function StatusName(s: Status): JString {
    match s
    case Success => J("passed")
    case Failure => J("failed")
    case Error => J("error")
    case Skipped => J("skipped")
    case Ignored => J("ignored")
    case Canceled => J("cancelled")
    case Pending => J("pending")
  }

  /** `sbt.testing.Selector`. */
  datatype Selector =
    | SuiteSelector
    | TestSelector(testName: JString)
    | NestedSuiteSelector(suiteId: JString)
    | NestedTestSelector(suiteId: JString, testName: JString)
    | TestWildcardSelector(testWildcard: JString)

  /** An exception attached to an event: its message and its printed stack trace. */
  datatype Thrown = Thrown(message: Option<JString>, stackTrace: JString)

  /** `sbt.testing.Event`. */
  datatype Event = Event(fullyQualifiedName: JString, selector: Selector, status: Status, duration: int, throwable: Option<Thrown>)

  /** `extractTestName`: the selector's test name for a test or nested test, otherwise the class name. */
  function ExtractTestName(e: Event): (r: JString)
    ensures e.selector.TestSelector? || e.selector.NestedTestSelector? ==> r == e.selector.testName
    ensures !(e.selector.TestSelector? || e.selector.NestedTestSelector?) ==> r == e.fullyQualifiedName
  {
    match e.selector
    case TestSelector(name) => name
    case NestedTestSelector(_, name) => name
    case _ => e.fullyQualifiedName
  }

  /** The `TestFinished` message for an event of suite `className`. */
  function FinishedLine(className: JString, e: Event): JString {
    var message := if e.throwable.Some? then e.throwable.value.message else None;
    var trace := if e.throwable.Some? then Some(e.throwable.value.stackTrace) else None;
    EncodeTestFinished(Some(className), Some(ExtractTestName(e)), Some(StatusName(e.status)), e.duration, message, trace)
  }

  /** The four counters of a suite run. */
  datatype Tally = Tally(passed: int, failed: int, skipped: int, ignored: int)

  function Total(t: Tally): int {
    t.passed + t.failed + t.skipped + t.ignored
  }

  /** The counters after one event. */
  function Bump(t: Tally, s: Status): (r: Tally)
    ensures Total(r) == Total(t) + 1
    ensures r.passed == t.passed + (if s == Success then 1 else 0)
    ensures r.failed == t.failed + (if s == Status.Failure || s == Error then 1 else 0)
    ensures r.skipped == t.skipped + (if s == Skipped || s == Canceled then 1 else 0)
    ensures r.ignored == t.ignored + (if s == Ignored || s == Pending then 1 else 0)
  {
    match s
    case Success => t.(passed := t.passed + 1)
    case Failure => t.(failed := t.failed + 1)
    case Error => t.(failed := t.failed + 1)
    case Skipped => t.(skipped := t.skipped + 1)
    case Canceled => t.(skipped := t.skipped + 1)
    case Ignored => t.(ignored := t.ignored + 1)
    case Pending => t.(ignored := t.ignored + 1)
  }

  /** The counters after a run of events, from zero. */
  function TallyOf(events: seq<Status>): Tally {
    if events == [] then Tally(0, 0, 0, 0) else Bump(TallyOf(events[..|events| - 1]), events[|events| - 1])
  }

  /** The number of events with one of the given statuses. */
  function CountOf(events: seq<Status>, of: set<Status>): nat {
    if events == [] then 0 else CountOf(events[..|events| - 1], of) + (if events[|events| - 1] in of then 1 else 0)
  }

  /** Each counter counts its statuses, and every event is counted once. */
  lemma {:induction false} TallyCounts(events: seq<Status>)
    ensures TallyOf(events)
         == Tally(CountOf(events, {Success}), CountOf(events, {Status.Failure, Error}),
                  CountOf(events, {Skipped, Canceled}), CountOf(events, {Ignored, Pending}))
    ensures Total(TallyOf(events)) == |events|
  {
    if events != [] {
      var before, e := events[..|events| - 1], events[|events| - 1];
      TallyCounts(before);
      assert TallyOf(events) == Bump(TallyOf(before), e);
      assert CountOf(events, {Success}) == CountOf(before, {Success}) + (if e == Success then 1 else 0);
      assert CountOf(events, {Status.Failure, Error}) == CountOf(before, {Status.Failure, Error}) + (if e == Status.Failure || e == Error then 1 else 0);
      assert CountOf(events, {Skipped, Canceled}) == CountOf(before, {Skipped, Canceled}) + (if e == Skipped || e == Canceled then 1 else 0);
      assert CountOf(events, {Ignored, Pending}) == CountOf(before, {Ignored, Pending}) + (if e == Ignored || e == Pending then 1 else 0);
    }
  }

  /** A suite being run: its name, the shared output and the two captured streams, and the counters. */
  class SuiteRun {
    const className: JString
    const out: Channel
    const capturedOut: CapturingOutputStream
    const capturedErr: CapturingOutputStream
    var passed: int
    var failed: int
    var skipped: int
    var ignored: int

    constructor(className: JString, out: Channel, capturedOut: CapturingOutputStream, capturedErr: CapturingOutputStream)
      ensures this.className == className && this.out == out
      ensures this.capturedOut == capturedOut && this.capturedErr == capturedErr
      ensures Counters() == Tally(0, 0, 0, 0)
    {
      this.className := className;
      this.out := out;
      this.capturedOut := capturedOut;
      this.capturedErr := capturedErr;
      passed, failed, skipped, ignored := 0, 0, 0, 0;
    }

    function Counters(): Tally
      reads this
    {
      Tally(passed, failed, skipped, ignored)
    }

    /** Both streams write to the suite's output, and they are two streams. */
    predicate Wired()
    {
      capturedOut.out == out && capturedErr.out == out && capturedOut != capturedErr
    }

    /**
     * The event handler: bump the status's counter, flush both streams,
     * then send `TestFinished`.
     */
    method Handle(e: Event)
      requires Wired()
      modifies this, out, capturedOut, capturedErr
      ensures Counters() == Bump(old(Counters()), e.status)
      ensures capturedOut.buffer == [] && capturedErr.buffer == []
      ensures out.lines == old(out.lines) + Flushed(capturedOut.name, old(capturedOut.buffer))
                         + Flushed(capturedErr.name, old(capturedErr.buffer)) + [FinishedLine(className, e)]
    {
      var status := Count(e.status);
      var throwable: Option<JString> := None;
      var message: Option<JString> := None;
      if e.throwable.Some? {
        message := e.throwable.value.message;
        throwable := Some(e.throwable.value.stackTrace);
      }
      var testName := ExtractTestName(e);
      capturedOut.Flush();
      capturedErr.Flush();
      out.Send(EncodeTestFinished(Some(className), Some(testName), Some(status), e.duration, message, throwable));
    }

    /** The status switch: bump one counter and name the status. */
    method Count(s: Status) returns (status: JString)
      modifies this
      ensures Counters() == Bump(old(Counters()), s)
      ensures status == StatusName(s)
    {
      match s {
        case Success => status := J("passed"); passed := passed + 1;
        case Failure => status := J("failed"); failed := failed + 1;
        case Error => status := J("error"); failed := failed + 1;
        case Skipped => status := J("skipped"); skipped := skipped + 1;
        case Ignored => status := J("ignored"); ignored := ignored + 1;
        case Canceled => status := J("cancelled"); skipped := skipped + 1;
        case Pending => status := J("pending"); ignored := ignored + 1;
      }
    }

    /** The end of a completed run: flush both streams, then send `SuiteDone` with the counters. */
    method Done(durationMs: int)
      requires Wired()
      modifies out, capturedOut, capturedErr
      ensures capturedOut.buffer == [] && capturedErr.buffer == []
      ensures out.lines == old(out.lines) + Flushed(capturedOut.name, old(capturedOut.buffer))
                         + Flushed(capturedErr.name, old(capturedErr.buffer))
                         + [EncodeSuiteDone(Some(className), passed, failed, skipped, ignored, durationMs)]
    {
      capturedOut.Flush();
      capturedErr.Flush();
      out.Send(EncodeSuiteDone(Some(className), passed, failed, skipped, ignored, durationMs));
    }
  }

  // ---------------------------------------------------------------------------
  // A suite that ends abnormally
  // ---------------------------------------------------------------------------

  /** How a suite run can end other than normally. */
  datatype Abort =
    | Interrupted
    | Security(message: Option<JString>)
    | Crashed(message: Option<JString>, stackTrace: JString)

  /** What the runner sends, and whether the exception goes on to the command loop. */
  datatype Aborted = Aborted(sent: seq<JString>, rethrown: bool)

  /** `String.contains`. */
  predicate JContains(s: JString, p: JString) {
    IndexOfSeq(s, p) >= 0
  }

  /** Java's text of a possibly null string. */
  function TextOf(s: Option<JString>): JString {
    if s.None? then J("null") else s.value
  }

  const ExitWord: JString := J("System.exit")

  const Warn: JString := J("warn")

  /** The warning for a cancelled suite. */
  function Cancelled(className: JString): JString {
    J("Suite ") + className + J(" was cancelled")
  }

  /** The error for a suite that threw anything else. */
  function SuiteFailure(className: JString, message: Option<JString>): JString {
    J("Error running suite ") + className + J(": ") + TextOf(message)
  }

  /** A cancelled suite is logged and the interruption rethrown; a blocked exit is a failed suite; another error is reported. */
  function AbortReport(className: JString, a: Abort, durationMs: int): (r: Aborted)
    ensures r.rethrown <==> a.Interrupted? || (a.Security? && !(a.message.Some? && JContains(a.message.value, ExitWord)))
    ensures a.Interrupted? ==> r.sent == [EncodeLog(Some(Warn), Some(Cancelled(className)))]
    ensures a.Security? ==>
      r.sent == (if a.message.Some? && JContains(a.message.value, ExitWord)
                 then [EncodeSuiteDone(Some(className), 0, 1, 0, 0, durationMs)] else [])
    ensures a.Crashed? ==> r.sent == [EncodeError(Some(SuiteFailure(className, a.message)), Some(a.stackTrace))]
  {
    match a
    case Interrupted =>
      Aborted([EncodeLog(Some(Warn), Some(Cancelled(className)))], true)
    case Security(m) =>
      if m.Some? && JContains(m.value, ExitWord) then Aborted([EncodeSuiteDone(Some(className), 0, 1, 0, 0, durationMs)], false)
      else Aborted([], true)
    case Crashed(m, trace) =>
      Aborted([EncodeError(Some(SuiteFailure(className, m)), Some(trace))], false)
  }

  const LoopFailure: JString := J("Error in command loop: ")

  /**
   * The message of the exception that reaches the command loop: the
   * `RuntimeException` wrapping an interruption takes the interruption's
   * `toString()`, and `new InterruptedException()` has no message of its own.
   */
  function RethrownMessage(a: Abort): JString {
    if a.Interrupted? then J("java.lang.InterruptedException") else TextOf(a.message)
  }

  /**
   * Everything sent for a suite that ends abnormally: what `runSuite`
   * sends, then, for an exception it rethrows, the command loop's error
   * with `loopTrace` (the rethrown exception's stack trace). The loop then
   * goes on with the next command.
   */
  function SuiteAbortLines(className: JString, a: Abort, durationMs: int, loopTrace: JString): (sent: seq<JString>)
  {
    var r := AbortReport(className, a, durationMs);
    r.sent + (if r.rethrown then [EncodeError(Some(LoopFailure + RethrownMessage(a)), Some(loopTrace))] else [])
  }

  /**
   * What each abnormal end reads back as: a cancelled suite is a warning
   * and then the loop's error naming the interruption; a security exception
   * not about `System.exit` is only the loop's error with its message; a
   * blocked exit is a failed `SuiteDone`; any other error is reported with
   * the suite's name and the exception's message.
   */
  lemma SuiteAbortReadsBack(className: JString, a: Abort, durationMs: int, loopTrace: JString)
    ensures var sent := SuiteAbortLines(className, a, durationMs, loopTrace);
      && (a.Interrupted? ==>
            |sent| == 2
            && FieldOf(sent[0], TypeKey) == Found(RespLog)
            && FieldOf(sent[0], MessageKey) == Found(Cancelled(className))
            && FieldOf(sent[1], TypeKey) == Found(RespError)
            && FieldOf(sent[1], MessageKey) == Found(LoopFailure + J("java.lang.InterruptedException")))
      && (a.Security? && !(a.message.Some? && JContains(a.message.value, ExitWord)) ==>
            |sent| == 1
            && FieldOf(sent[0], TypeKey) == Found(RespError)
            && FieldOf(sent[0], MessageKey) == Found(LoopFailure + TextOf(a.message)))
      && (a.Security? && a.message.Some? && JContains(a.message.value, ExitWord) ==>
            sent == [EncodeSuiteDone(Some(className), 0, 1, 0, 0, durationMs)])
      && (a.Crashed? ==>
            |sent| == 1
            && FieldOf(sent[0], TypeKey) == Found(RespError)
            && FieldOf(sent[0], MessageKey) == Found(SuiteFailure(className, a.message)))
  {
    match a
    case Interrupted =>
      CancelledReadsBack(className, durationMs, loopTrace);
      ErrorReadsBack(Some(LoopFailure + J("java.lang.InterruptedException")), Some(loopTrace));
    case Security(m) =>
      if !(m.Some? && JContains(m.value, ExitWord)) {
        ErrorReadsBack(Some(LoopFailure + TextOf(m)), Some(loopTrace));
      }
    case Crashed(m, trace) =>
      ErrorReadsBack(Some(SuiteFailure(className, m)), Some(trace));
  }

  /** A cancelled suite: the warning, then the loop's error naming the interruption. */
  lemma CancelledReadsBack(className: JString, durationMs: int, loopTrace: JString)
    ensures var sent := SuiteAbortLines(className, Interrupted, durationMs, loopTrace);
      && |sent| == 2
      && FieldOf(sent[0], TypeKey) == Found(RespLog)
      && FieldOf(sent[0], MessageKey) == Found(Cancelled(className))
      && sent[1] == EncodeError(Some(LoopFailure + J("java.lang.InterruptedException")), Some(loopTrace))
  {
    WordOf("Log");
    WarnSkipped();
    LogMessage(Some(Warn), Some(Cancelled(className)));
    WithDataType(RespLog, LogData(Some(Warn), Some(Cancelled(className))));
  }

  /** An Error line reads back as an Error with its message. */
  lemma ErrorReadsBack(message: Option<JString>, throwable: Option<JString>)
    ensures FieldOf(EncodeError(message, throwable), TypeKey) == Found(RespError)
    ensures FieldOf(EncodeError(message, throwable), MessageKey) == (if message.Some? then Found(message.value) else Absent)
  {
    WordOf("Error");
    ErrorMessage(message, throwable);
    WithDataType(RespError, ErrorData(message, throwable));
  }

  /** The message of the exception the runner's security manager throws for `System.exit(status)`. */
  function ExitMessage(status: int): JString {
    ExitWord + ([0x28] + DecimalText(status) + J(") blocked by test runner"))
  }

  /** The warning the security manager sends before throwing. */
  function ExitWarning(status: int): JString {
    EncodeLog(Some(Warn), Some(J("Test attempted System.exit(") + DecimalText(status) + J(") - blocked")))
  }

  /**
   * What the runner sends when `System.exit(status)` is called outside the
   * execution of a task (by the framework's runner, `fingerprints()`,
   * `tasks` or `done()`): the warning, then the suite's report. An exit
   * inside a task is caught by `executeTasks` instead; see `TestExitReported`.
   */
  function BlockedExit(className: JString, status: int, durationMs: int): seq<JString> {
    [ExitWarning(status)] + AbortReport(className, Security(Some(ExitMessage(status))), durationMs).sent
  }

  /**
   * A `System.exit` blocked outside task execution is a warning and then a
   * suite with no test passed and one failed; nothing reaches the command
   * loop.
   */
  lemma BlockedExitReported(className: JString, status: int, durationMs: int)
    ensures BlockedExit(className, status, durationMs)
         == [ExitWarning(status), EncodeSuiteDone(Some(className), 0, 1, 0, 0, durationMs)]
    ensures !AbortReport(className, Security(Some(ExitMessage(status))), durationMs).rethrown
  {
    var s := ExitMessage(status);
    assert s[..|ExitWord|] == ExitWord;
    IsPrefixMeans(ExitWord, s);
  }

  // ---------------------------------------------------------------------------
  // Running the tasks
  // ---------------------------------------------------------------------------

  /**
   * A task of the test framework, as far as the runner sees it: the lines
   * sent while it runs (through the event handler, the logger and the
   * security manager), then how `execute` ended. It returned its nested
   * tasks, or it threw an exception other than an interruption.
   */
  datatype Task =
    | Returned(sent: seq<JString>, nested: seq<Task>)
    | Threw(sent: seq<JString>, message: Option<JString>)

  const TaskFailure: JString := J("Task execution failed: ")

  const ErrorLevel: JString := J("error")

  /** The error `executeTasks` logs for a task that threw. */
  function TaskFailed(message: Option<JString>): JString {
    EncodeLog(Some(ErrorLevel), Some(TaskFailure + TextOf(message)))
  }

  /** Everything sent while the tasks run: each task's lines, then its nested tasks' lines, then the next task's. */
  function TasksLines(tasks: seq<Task>): seq<JString>
    decreases tasks
  {
    if tasks == [] then [] else TaskLines(tasks[0]) + TasksLines(tasks[1..])
  }

  function TaskLines(t: Task): seq<JString>
    decreases t
  {
    match t
    case Returned(sent, nested) => sent + TasksLines(nested)
    case Threw(sent, m) => sent + [TaskFailed(m)]
  }

  /** The task's own sends, in order. */
  method SendAll(out: Channel, lines: seq<JString>)
    modifies out
    ensures out.lines == old(out.lines) + lines
  {
    for i := 0 to |lines|
      invariant out.lines == old(out.lines) + lines[..i]
    {
      out.Send(lines[i]);
      assert lines[..i + 1] == lines[..i] + [lines[i]];
    }
  }

  /**
   * `executeTasks`: each task runs and then its nested tasks do; a task
   * that throws anything but an interruption is logged as an error and the
   * next task still runs.
   */
  method ExecuteTasks(out: Channel, tasks: seq<Task>)
    modifies out
    ensures out.lines == old(out.lines) + TasksLines(tasks)
    decreases tasks
  {
    var i := 0;
    while i < |tasks|
      invariant 0 <= i <= |tasks|
      invariant out.lines + TasksLines(tasks[i..]) == old(out.lines) + TasksLines(tasks)
      decreases |tasks| - i
    {
      assert tasks[i..][0] == tasks[i] && tasks[i..][1..] == tasks[i + 1..];
      RunTask(out, tasks[i]);
      i := i + 1;
    }
  }

  /** One task of `executeTasks`: its own sends, then its nested tasks, or the error when it threw. */
  method RunTask(out: Channel, t: Task)
    modifies out
    ensures out.lines == old(out.lines) + TaskLines(t)
    decreases t
  {
    SendAll(out, t.sent);
    match t {
      case Returned(_, nested) =>
        ExecuteTasks(out, nested);
      case Threw(_, m) =>
        out.Send(TaskFailed(m));
    }
  }

  /** The tasks' lines distribute over concatenation: a task's failure does not stop the ones after it. */
  lemma {:induction false} TasksLinesAppend(a: seq<Task>, b: seq<Task>)
    ensures TasksLines(a + b) == TasksLines(a) + TasksLines(b)
  {
    if a != [] {
      assert (a + b)[0] == a[0] && (a + b)[1..] == a[1..] + b;
      TasksLinesAppend(a[1..], b);
    } else {
      assert a + b == b;
    }
  }

  /** The `error` level never holds the quoted `message` key. */
  lemma ErrorLevelSkipped()
    ensures Skips(Some(ErrorLevel), MessageKey)
  {
    WordOf("message");
    EscapedPlain(ErrorLevel);
    SkipsQuoteFree(ErrorLevel, MessageKey);
  }

  /** The error for a failed task reads back as a `Log` with the exception's message after the prefix. */
  lemma TaskFailedReadsBack(message: Option<JString>)
    ensures FieldOf(TaskFailed(message), TypeKey) == Found(RespLog)
    ensures FieldOf(TaskFailed(message), MessageKey) == Found(TaskFailure + TextOf(message))
  {
    WordOf("Log");
    ErrorLevelSkipped();
    LogMessage(Some(ErrorLevel), Some(TaskFailure + TextOf(message)));
    WithDataType(RespLog, LogData(Some(ErrorLevel), Some(TaskFailure + TextOf(message))));
  }

  /**
   * A test that calls `System.exit(status)` inside its task: after what the
   * task sent before, the security manager's warning, then the error
   * naming the blocked exit, then the remaining tasks. `executeTasks`
   * returns normally, so the suite goes on to its ordinary `SuiteDone`
   * (`SuiteRun.Done`) rather than the failed one of `BlockedExit`.
   */
  lemma TestExitReported(before: seq<JString>, status: int, rest: seq<Task>)
    ensures var exiting := Task.Threw(before + [ExitWarning(status)], Some(ExitMessage(status)));
      TasksLines([exiting] + rest)
      == before + [ExitWarning(status), TaskFailed(Some(ExitMessage(status)))] + TasksLines(rest)
    ensures FieldOf(TaskFailed(Some(ExitMessage(status))), MessageKey) == Found(TaskFailure + ExitMessage(status))
  {
    var exiting := Task.Threw(before + [ExitWarning(status)], Some(ExitMessage(status)));
    TasksLinesAppend([exiting], rest);
    assert TasksLines([exiting]) == TaskLines(exiting) + TasksLines([]);
    TaskFailedReadsBack(Some(ExitMessage(status)));
  }

  // ---------------------------------------------------------------------------
  // The command loop
  // ---------------------------------------------------------------------------

  /** What the loop does: send a line, run a suite (in the test framework), or dump the threads. */
  datatype Action = Sent(line: JString) | RanSuite(className: JString, framework: JString, args: seq<JString>) | DumpedThreads

  const DecodeFailure: JString := J("Failed to decode command: ")

  /** What the loop does for a command other than `Shutdown`. */
  function Dispatch(cmd: Command): seq<Action> {
    match cmd
    case RunSuite(c, f, args) => [RanSuite(c, f, args)]
    case GetThreadDump => [DumpedThreads]
    case Invalid(m) => [Sent(EncodeError(Some(DecodeFailure + m), None))]
    case Shutdown => []
  }

  /** The actions for the command lines read until end of input or `Shutdown`. */
  function Commands(input: seq<JString>): seq<Action> {
    if input == [] then []
    else if ParseWith(input[0], AsWritten).Shutdown? then []
    else Dispatch(ParseWith(input[0], AsWritten)) + Commands(input[1..])
  }

  /** The number of lines read: up to and including the first `Shutdown`, or all of them. */
  function Consumed(input: seq<JString>): (n: nat)
    ensures n <= |input|
  {
    if input == [] then 0
    else if ParseWith(input[0], AsWritten).Shutdown? then 1
    else 1 + Consumed(input[1..])
  }

  /** The loop at line `i`. */
  lemma CommandsAt(input: seq<JString>, i: nat)
    requires i < |input|
    ensures var cmd := ParseWith(input[i], AsWritten);
      (cmd.Shutdown? ==> Commands(input[i..]) == [] && Consumed(input[i..]) == 1)
      && (!cmd.Shutdown? ==> Commands(input[i..]) == Dispatch(cmd) + Commands(input[i + 1..])
                             && Consumed(input[i..]) == 1 + Consumed(input[i + 1..]))
  {
    assert input[i..][0] == input[i] && input[i..][1..] == input[i + 1..];
  }

  /** `main`: send `Ready`, then read and dispatch commands until end of input or `Shutdown`. */
  method CommandLoop(input: seq<JString>) returns (actions: seq<Action>, read: nat)
    ensures actions == [Sent(EncodeReady())] + Commands(input)
    ensures read == Consumed(input)
  {
    actions := [Sent(EncodeReady())];
    read := 0;
    var running := true;
    while running
      invariant read <= |input|
      invariant running ==> actions + Commands(input[read..]) == [Sent(EncodeReady())] + Commands(input)
      invariant running ==> read + Consumed(input[read..]) == Consumed(input)
      invariant !running ==> actions == [Sent(EncodeReady())] + Commands(input) && read == Consumed(input)
      decreases |input| - read, running
    {
      if read == |input| {
        assert input[read..] == [];
        running := false;
      } else {
        var line := input[read];
        CommandsAt(input, read);
        ghost var rest := Commands(input[read + 1..]);
        read := read + 1;
        var done, acts := Execute(line);
        if done {
          assert actions + [] == actions;
          running := false;
        } else {
          ActionsAssoc(actions, acts, rest);
          actions := actions + acts;
        }
      }
    }
  }

  lemma ActionsAssoc(a: seq<Action>, b: seq<Action>, c: seq<Action>)
    ensures (a + b) + c == a + (b + c)
  {
  }

  /** The body of the loop for one line: decode it and act on the command. */
  method Execute(line: JString) returns (done: bool, acts: seq<Action>)
    ensures done <==> ParseWith(line, AsWritten).Shutdown?
    ensures acts == Dispatch(ParseWith(line, AsWritten))
  {
    var cmd := ParseCommand(line);
    done := false;
    match cmd {
      case Shutdown =>
        done := true;
        acts := [];
      case RunSuite(c, f, args) =>
        acts := [RanSuite(c, f, args)];
      case GetThreadDump =>
        acts := [DumpedThreads];
      case Invalid(m) =>
        acts := [Sent(EncodeError(Some(DecodeFailure + m), None))];
    }
  }

  /** Nothing after a `Shutdown` is read. */
  lemma {:induction false} ShutdownStops(before: seq<JString>, after: seq<JString>)
    requires forall i | 0 <= i < |before| :: !ParseWith(before[i], AsWritten).Shutdown?
    ensures Commands(before + [EncodeShutdown()] + after) == Commands(before)
    ensures Consumed(before + [EncodeShutdown()] + after) == |before| + 1
  {
    var input := before + [EncodeShutdown()] + after;
    if before == [] {
      ShutdownParses(AsWritten);
      assert input[0] == EncodeShutdown();
    } else {
      assert input[0] == before[0];
      assert input[1..] == before[1..] + [EncodeShutdown()] + after;
      ShutdownStops(before[1..], after);
    }
  }

  /** An undecodable line is answered with an `Error` whose message reads back with the prefix. */
  lemma InvalidReported(line: JString, rest: seq<JString>)
    requires ParseWith(line, AsWritten).Invalid?
    ensures var m := ParseWith(line, AsWritten).message;
      Commands([line] + rest) == [Sent(EncodeError(Some(DecodeFailure + m), None))] + Commands(rest)
      && FieldOf(EncodeError(Some(DecodeFailure + m), None), MessageKey) == Found(DecodeFailure + m)
  {
    var m := ParseWith(line, AsWritten).message;
    assert ([line] + rest)[0] == line && ([line] + rest)[1..] == rest;
    ErrorMessage(Some(DecodeFailure + m), None);
  }

  /** A `RunSuite` line bleep wrote runs that suite with the arguments that are not null. */
  lemma RunSuiteDispatched(className: JString, framework: JString, args: seq<Option<JString>>, rest: seq<JString>)
    requires Skips(Some(className), FrameworkKey) && Skips(Some(className), ArgsKey) && Skips(Some(framework), ArgsKey)
    requires forall i, j | 0 <= i < |args| && args[i].Some? && 0 <= j < |args[i].value| :: Survives(args[i].value[j])
    ensures Commands([Render(RunSuitePieces(Some(className), Some(framework), args))] + rest)
         == [RanSuite(className, framework, NonNull(args))] + Commands(rest)
  {
    var line := Render(RunSuitePieces(Some(className), Some(framework), args));
    RunSuiteRoundTripAsWritten(className, framework, args);
    assert ([line] + rest)[0] == line && ([line] + rest)[1..] == rest;
  }
}
