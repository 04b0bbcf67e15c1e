/**
 * The messages of the test-runner protocol: the responses the forked JVM
 * writes (`encodeReady` … `encodeThreadDump`), the two commands bleep
 * writes (`encodeRunSuite`, `encodeShutdown`), and `parseCommand`, which
 * reads a command line with the field and array scanners.
 *
 * Every message is a sequence of pieces nested to the right, block by
 * block in the order the encoder writes them; its text is `Render` of the
 * pieces. `{"type":"Ready"}` is
 * `[Gap([LBRACE])] + (Tok(TypeKey, [COLON]) + Tok(RespReady, [RBRACE]))`.
 */
module TestProtocolMessages {
  import opened KotlinStd
  import opened TestProtocol
  import opened TestProtocolArray

  // ---------------------------------------------------------------------------
  // Names
  // ---------------------------------------------------------------------------

  /** Command types (bleep to the forked JVM). */
  const CmdRunSuite: JString := J("RunSuite")
  const CmdShutdown: JString := J("Shutdown")
  const CmdGetThreadDump: JString := J("GetThreadDump")

  /** Response types (the forked JVM to bleep). */
  const RespReady: JString := J("Ready")
  const RespTestStarted: JString := J("TestStarted")
  const RespTestFinished: JString := J("TestFinished")
  const RespSuiteDone: JString := J("SuiteDone")
  const RespLog: JString := J("Log")
  const RespError: JString := J("Error")
  const RespThreadDump: JString := J("ThreadDump")

  /** Keys. */
  const TypeKey: JString := J("type")
  const DataKey: JString := J("data")
  const ClassNameKey: JString := J("className")
  const FrameworkKey: JString := J("framework")
  const ArgsKey: JString := J("args")
  const SuiteKey: JString := J("suite")
  const TestKey: JString := J("test")
  const StatusKey: JString := J("status")
  const DurationKey: JString := J("durationMs")
  const MessageKey: JString := J("message")
  const ThrowableKey: JString := J("throwable")
  const PassedKey: JString := J("passed")
  const FailedKey: JString := J("failed")
  const SkippedKey: JString := J("skipped")
  const IgnoredKey: JString := J("ignored")
  const LevelKey: JString := J("level")
  const ThreadsKey: JString := J("threads")
  const NameKey: JString := J("name")
  const StateKey: JString := J("state")
  const StackTraceKey: JString := J("stackTrace")

  /** `}}`: the end of the data object and of the message. */
  const Close: JString := [RBRACE, RBRACE]

  // ---------------------------------------------------------------------------
  // Message layout
  // ---------------------------------------------------------------------------

  /** `{"type":"<t>"}`: a message without data. */
  function Bare(t: JString): seq<Piece> {
    [Gap([LBRACE])] + (Tok(TypeKey, [COLON]) + Tok(t, [RBRACE]))
  }

  /** `{"type":"<t>",`. */
  function Head(t: JString): seq<Piece> {
    [Gap([LBRACE])] + (Tok(TypeKey, [COLON]) + Tok(t, [COMMA]))
  }

  /** `{"type":"<t>","data":{` and then the members of the data object. */
  function WithData(t: JString, data: seq<Piece>): seq<Piece> {
    Head(t) + (Tok(DataKey, [COLON, LBRACE]) + data)
  }

  /** A member written only when its value is not null: `,"<k>":` and the value. */
  function Optional(k: JString, v: Option<JString>): seq<Piece> {
    if v.None? then [] else [Gap([COMMA])] + (Tok(k, [COLON]) + [JsonPiece(v)])
  }

  // ---------------------------------------------------------------------------
  // Responses
  // ---------------------------------------------------------------------------

  function EncodeReady(): JString {
    Render(Bare(RespReady))
  }

  function TestStartedData(suite: Option<JString>, test: Option<JString>): seq<Piece> {
    Tok(SuiteKey, [COLON]) + (Val(suite, [COMMA]) + (Tok(TestKey, [COLON]) + Val(test, Close)))
  }

  function EncodeTestStarted(suite: Option<JString>, test: Option<JString>): JString {
    Render(WithData(RespTestStarted, TestStartedData(suite, test)))
  }

  /** The members of `TestFinished`: `message` and `throwable` only when not null. */
  function TestFinishedData(suite: Option<JString>, test: Option<JString>, status: Option<JString>, durationMs: int,
                            message: Option<JString>, throwable: Option<JString>): seq<Piece>
  {
    Tok(SuiteKey, [COLON]) + (Val(suite, [COMMA]) +
    (Tok(TestKey, [COLON]) + (Val(test, [COMMA]) +
    (Tok(StatusKey, [COLON]) + (Val(status, [COMMA]) +
    (Tok(DurationKey, [COLON]) + ([Gap(DecimalText(durationMs))] +
    TestFinishedTail(message, throwable))))))))
  }

  /** After `durationMs`: the optional members and `}}`. */
  function TestFinishedTail(message: Option<JString>, throwable: Option<JString>): seq<Piece> {
    Optional(MessageKey, message) + ThrowableTail(throwable)
  }

  /** The optional `throwable` member and `}}`. */
  function ThrowableTail(throwable: Option<JString>): seq<Piece> {
    Optional(ThrowableKey, throwable) + [Gap(Close)]
  }

  function EncodeTestFinished(suite: Option<JString>, test: Option<JString>, status: Option<JString>, durationMs: int,
                              message: Option<JString>, throwable: Option<JString>): JString
  {
    Render(WithData(RespTestFinished, TestFinishedData(suite, test, status, durationMs, message, throwable)))
  }

  function SuiteDoneData(suite: Option<JString>, passed: int, failed: int, skipped: int, ignored: int, durationMs: int): seq<Piece> {
    Tok(SuiteKey, [COLON]) + (Val(suite, [COMMA]) +
    (Tok(PassedKey, [COLON]) + (Num(passed, [COMMA]) +
    (Tok(FailedKey, [COLON]) + (Num(failed, [COMMA]) +
    (Tok(SkippedKey, [COLON]) + (Num(skipped, [COMMA]) +
    (Tok(IgnoredKey, [COLON]) + (Num(ignored, [COMMA]) +
    (Tok(DurationKey, [COLON]) + Num(durationMs, Close)))))))))))
  }

  function EncodeSuiteDone(suite: Option<JString>, passed: int, failed: int, skipped: int, ignored: int, durationMs: int): JString {
    Render(WithData(RespSuiteDone, SuiteDoneData(suite, passed, failed, skipped, ignored, durationMs)))
  }

  function LogData(level: Option<JString>, message: Option<JString>): seq<Piece> {
    Tok(LevelKey, [COLON]) + (Val(level, [COMMA]) + (Tok(MessageKey, [COLON]) + Val(message, Close)))
  }

  function EncodeLog(level: Option<JString>, message: Option<JString>): JString {
    Render(WithData(RespLog, LogData(level, message)))
  }

  /** The members of `Error`: `throwable` only when not null. */
  function ErrorData(message: Option<JString>, throwable: Option<JString>): seq<Piece> {
    Tok(MessageKey, [COLON]) + ([JsonPiece(message)] + ThrowableTail(throwable))
  }

  function EncodeError(message: Option<JString>, throwable: Option<JString>): JString {
    Render(WithData(RespError, ErrorData(message, throwable)))
  }

  // ---------------------------------------------------------------------------
  // Lists: `encodeRunSuite` and `encodeThreadDump`
  // ---------------------------------------------------------------------------

  /**
   * The loop both list encoders run: a comma before every element but the
   * first, then `jsonString` of the element, appended to `sb0`.
   */
  method AppendStrings(sb0: JString, vs: seq<Option<JString>>) returns (sb: JString)
    ensures sb == sb0 + Render(StringList(vs))
  {
    sb := sb0;
    for i := 0 to |vs|
      invariant sb == sb0 + Render(StringList(vs[..i]))
    {
      if i > 0 {
        sb := sb + [COMMA];
      }
      var s := JsonString(vs[i]);
      StringListStep(vs, i);
      AppendStep(sb0, Render(StringList(vs[..i])), if i > 0 then [COMMA] else [], s);
      sb := sb + s;
    }
    assert vs[..|vs|] == vs;
  }

  /** The text of the list grows by the comma and the element. */
  lemma StringListStep(vs: seq<Option<JString>>, i: nat)
    requires i < |vs|
    ensures Render(StringList(vs[..i + 1])) == (Render(StringList(vs[..i])) + (if i > 0 then [COMMA] else [])) + JsonText(vs[i])
  {
    assert vs[..i + 1] == vs[..i] + [vs[i]];
    StringListRender(vs[..i], vs[i]);
  }

  lemma StringListRender(vs: seq<Option<JString>>, v: Option<JString>)
    ensures Render(StringList(vs + [v])) == (Render(StringList(vs)) + (if vs == [] then [] else [COMMA])) + JsonText(v)
  {
    StringListSnoc(vs, v);
    var sep := if vs == [] then [] else [Gap([COMMA])];
    RenderSnoc(StringList(vs), sep, [JsonPiece(v)]);
    assert Render([JsonPiece(v)]) == JsonText(v) + Render([]);
  }

  /** The text of three runs of pieces, the middle one a comma or nothing. */
  lemma RenderSnoc(a: seq<Piece>, sep: seq<Piece>, x: seq<Piece>)
    requires sep == [] || sep == [Gap([COMMA])]
    ensures Render(a + sep + x) == (Render(a) + (if sep == [] then [] else [COMMA])) + Render(x)
  {
    if sep == [] {
      RenderNoComma(a, x);
    } else {
      RenderComma(a, x);
    }
  }

  lemma RenderComma(a: seq<Piece>, x: seq<Piece>)
    ensures Render(a + [Gap([COMMA])] + x) == (Render(a) + [COMMA]) + Render(x)
  {
    var g := [Gap([COMMA])];
    RenderAppend(a + g, x);
    RenderAppend(a, g);
    RenderGap([COMMA]);
  }

  lemma RenderGap(t: JString)
    ensures Render([Gap(t)]) == t
  {
    assert Render([Gap(t)]) == t + Render([]);
  }

  lemma RenderNoComma(a: seq<Piece>, x: seq<Piece>)
    ensures Render(a + [] + x) == (Render(a) + []) + Render(x)
  {
    assert a + [] == a;
    assert Render(a) + [] == Render(a);
    RenderAppend(a, x);
  }

  lemma AppendStep(a: JString, b: JString, c: JString, d: JString)
    ensures ((a + b) + c) + d == a + ((b + c) + d)
  {
    AppendAssoc(a, b, c);
    AppendAssoc(a, b + c, d);
  }

  /** `"className":…,"framework":…,"args":[` and then `tail`. */
  function RunSuiteFields(className: Option<JString>, framework: Option<JString>, tail: seq<Piece>): seq<Piece> {
    Tok(ClassNameKey, [COLON]) + (Val(className, [COMMA]) +
    (Tok(FrameworkKey, [COLON]) + (Val(framework, [COMMA]) +
    (Tok(ArgsKey, [COLON, LBRACKET]) + tail))))
  }

  /** The list and `]}}`. */
  function RunSuiteTail(args: seq<Option<JString>>): seq<Piece> {
    StringList(args) + [Gap([RBRACKET, RBRACE, RBRACE])]
  }

  function RunSuitePieces(className: Option<JString>, framework: Option<JString>, args: seq<Option<JString>>): seq<Piece> {
    WithData(CmdRunSuite, RunSuiteFields(className, framework, RunSuiteTail(args)))
  }

  /** `{"type":"RunSuite","data":{"className":…,"framework":…,"args":[`, what precedes the loop. */
  function RunSuiteOpening(className: Option<JString>, framework: Option<JString>): seq<Piece> {
    WithData(CmdRunSuite, RunSuiteFields(className, framework, []))
  }

  lemma RunSuiteSplit(className: Option<JString>, framework: Option<JString>, args: seq<Option<JString>>)
    ensures RunSuitePieces(className, framework, args) == RunSuiteOpening(className, framework) + RunSuiteTail(args)
  {
    var tail := RunSuiteTail(args);
    var a := Tok(ArgsKey, [COLON, LBRACKET]);
    var f2 := Tok(FrameworkKey, [COLON]) + (Val(framework, [COMMA]) + a);
    var f1 := Val(className, [COMMA]) + f2;
    assert a + [] == a;
    Nest2(Val(framework, [COMMA]), a, tail);
    Nest2(Tok(FrameworkKey, [COLON]), Val(framework, [COMMA]) + a, tail);
    Nest2(Val(className, [COMMA]), f2, tail);
    Nest2(Tok(ClassNameKey, [COLON]), f1, tail);
    WithDataTail(CmdRunSuite, RunSuiteFields(className, framework, []), tail);
  }

  lemma WithDataTail(t: JString, data: seq<Piece>, tail: seq<Piece>)
    ensures WithData(t, data) + tail == WithData(t, data + tail)
  {
    Nest2(Head(t), Tok(DataKey, [COLON, LBRACE]) + data, tail);
    Nest2(Tok(DataKey, [COLON, LBRACE]), data, tail);
  }

  /** `encodeRunSuite`. Elements of `args` may be null and are written as `null`. */
  method EncodeRunSuite(className: Option<JString>, framework: Option<JString>, args: seq<Option<JString>>) returns (r: JString)
    ensures r == Render(RunSuitePieces(className, framework, args))
  {
    var opening := Render(RunSuiteOpening(className, framework));
    var sb := AppendStrings(opening, args);
    r := sb + [RBRACKET, RBRACE, RBRACE];
    RunSuiteSplit(className, framework, args);
    RenderListEnd(RunSuiteOpening(className, framework), StringList(args), [RBRACKET, RBRACE, RBRACE]);
  }

  /** The text of an opening, a list and the closing punctuation. */
  lemma RenderListEnd(opening: seq<Piece>, items: seq<Piece>, close: JString)
    ensures Render(opening + (items + [Gap(close)])) == (Render(opening) + Render(items)) + close
  {
    RenderAppend(opening, items + [Gap(close)]);
    RenderAppend(items, [Gap(close)]);
    RenderGap(close);
    AppendAssoc(Render(opening), Render(items), close);
  }

  function EncodeShutdown(): JString {
    Render(Bare(CmdShutdown))
  }

  /** One thread of a thread dump. */
  datatype ThreadDumpEntry = ThreadDumpEntry(name: Option<JString>, state: Option<JString>, stackTrace: seq<Option<JString>>)

  /** `{"name":…,"state":…,"stackTrace":[`. */
  function EntryOpening(e: ThreadDumpEntry): seq<Piece> {
    [Gap([LBRACE])] + (Tok(NameKey, [COLON]) + (Val(e.name, [COMMA]) +
    (Tok(StateKey, [COLON]) + (Val(e.state, [COMMA]) + Tok(StackTraceKey, [COLON, LBRACKET])))))
  }

  /** A thread: its opening, its stack lines, `]}`. */
  function EntryPieces(e: ThreadDumpEntry): seq<Piece> {
    EntryOpening(e) + (StringList(e.stackTrace) + [Gap([RBRACKET, RBRACE])])
  }

  function Entries(threads: seq<ThreadDumpEntry>): seq<seq<Piece>> {
    seq(|threads|, i requires 0 <= i < |threads| => EntryPieces(threads[i]))
  }

  /** `{"type":"ThreadDump","data":{"threads":[`. */
  function ThreadDumpOpening(): seq<Piece> {
    WithData(RespThreadDump, Tok(ThreadsKey, [COLON, LBRACKET]))
  }

  function ThreadDumpPieces(threads: seq<ThreadDumpEntry>): seq<Piece> {
    ThreadDumpOpening() + (Joined(Entries(threads)) + [Gap([RBRACKET, RBRACE, RBRACE])])
  }

  /** One thread, as the body of the outer loop of `encodeThreadDump` writes it. */
  method EncodeEntry(e: ThreadDumpEntry) returns (r: JString)
    ensures r == Render(EntryPieces(e))
  {
    var sb := Render(EntryOpening(e));
    sb := AppendStrings(sb, e.stackTrace);
    r := sb + [RBRACKET, RBRACE];
    RenderListEnd(EntryOpening(e), StringList(e.stackTrace), [RBRACKET, RBRACE]);
  }

  /** `encodeThreadDump`: the threads in order, separated by commas. */
  method EncodeThreadDump(threads: seq<ThreadDumpEntry>) returns (r: JString)
    ensures r == Render(ThreadDumpPieces(threads))
  {
    var opening := Render(ThreadDumpOpening());
    var sb := opening;
    var first := true;
    for i := 0 to |threads|
      invariant first <==> i == 0
      invariant sb == opening + Render(Joined(Entries(threads[..i])))
    {
      var sep: JString := if first then [] else [COMMA];
      first := false;
      var entry := EncodeEntry(threads[i]);
      JoinedStep(threads, i);
      AppendStep(opening, Render(Joined(Entries(threads[..i]))), sep, entry);
      sb := (sb + sep) + entry;
    }
    assert threads[..|threads|] == threads;
    RenderListEnd(ThreadDumpOpening(), Joined(Entries(threads)), [RBRACKET, RBRACE, RBRACE]);
    r := sb + [RBRACKET, RBRACE, RBRACE];
  }

  /** The text of the thread list grows by the comma and the thread. */
  lemma JoinedStep(threads: seq<ThreadDumpEntry>, i: nat)
    requires i < |threads|
    ensures Render(Joined(Entries(threads[..i + 1])))
         == (Render(Joined(Entries(threads[..i]))) + (if i > 0 then [COMMA] else [])) + Render(EntryPieces(threads[i]))
  {
    var xs := Entries(threads[..i]);
    var x := EntryPieces(threads[i]);
    assert Entries(threads[..i + 1]) == xs + [x];
    JoinedRender(xs, x);
  }

  lemma JoinedRender(xs: seq<seq<Piece>>, x: seq<Piece>)
    ensures Render(Joined(xs + [x])) == (Render(Joined(xs)) + (if xs == [] then [] else [COMMA])) + Render(x)
  {
    JoinedSnoc(xs, x);
    RenderSnoc(Joined(xs), if xs == [] then [] else [Gap([COMMA])], x);
  }

  // ---------------------------------------------------------------------------
  // parseCommand
  // ---------------------------------------------------------------------------

  /** `ParsedCommand`. */
  datatype Command =
    | RunSuite(className: JString, framework: JString, args: seq<JString>)
    | Shutdown
    | GetThreadDump
    | Invalid(message: JString)

  /** The exception `parseInt` throws on `hex`, caught by `parseCommand`. */
  function ParseError(hex: JString): Command {
    Invalid(J("Parse error: ") + NumberFormatMessage(hex))
  }

  /**
   * `parseCommand`, with the array scanner as written or corrected. The
   * three lookups of a `RunSuite` run in order, so the first one to throw
   * decides the error; a missing `args` list is an empty one.
   */
  function ParseWith(line: JString, mode: ArrayDecoding): (r: Command)
    ensures line == [] ==> r == Invalid(J("Empty command"))
    ensures r.Shutdown? <==> line != [] && FieldOf(line, TypeKey) == Found(CmdShutdown)
    ensures r.GetThreadDump? <==> line != [] && FieldOf(line, TypeKey) == Found(CmdGetThreadDump)
    ensures r.RunSuite? ==> line != [] && FieldOf(line, TypeKey) == Found(CmdRunSuite)
  {
    if line == [] then Invalid(J("Empty command"))
    else
      match FieldOf(line, TypeKey)
      case Threw(hex) => ParseError(hex)
      case Absent => Invalid(J("Missing type field"))
      case Found(t) =>
        if t == CmdShutdown then Shutdown
        else if t == CmdGetThreadDump then GetThreadDump
        else if t == CmdRunSuite then ParseRunSuite(line, mode)
        else Invalid(J("Unknown command type: ") + t)
  }

  /** A `RunSuite` line: the data section is the text from the first `"data"` on. */
  function ParseRunSuite(line: JString, mode: ArrayDecoding): (r: Command)
    ensures !r.Shutdown? && !r.GetThreadDump?
  {
    var d := IndexOfSeq(line, Quoted(DataKey));
    if d < 0 then Invalid(J("Missing data field for RunSuite"))
    else RunSuiteOf(line[d..], mode)
  }

  /** The fields of a `RunSuite` read from its data section. */
  function RunSuiteOf(section: JString, mode: ArrayDecoding): (r: Command)
    ensures !r.Shutdown? && !r.GetThreadDump?
    ensures r.RunSuite? <==>
      FieldOf(section, ClassNameKey).Found? && FieldOf(section, FrameworkKey).Found? && !ArrayOf(section, ArgsKey, mode).StringsThrew?
    ensures r.RunSuite? ==>
      r.className == FieldOf(section, ClassNameKey).value && r.framework == FieldOf(section, FrameworkKey).value
  {
    var className := FieldOf(section, ClassNameKey);
    var framework := FieldOf(section, FrameworkKey);
    var args := ArrayOf(section, ArgsKey, mode);
    if className.Threw? then ParseError(className.input)
    else if framework.Threw? then ParseError(framework.input)
    else if args.StringsThrew? then ParseError(args.input)
    else if className.Absent? || framework.Absent? then Invalid(J("Missing className or framework"))
    else RunSuite(className.value, framework.value, if args.Strings? then args.items else [])
  }

  /** `parseCommand`. */
  method ParseCommand(line: JString) returns (r: Command)
    ensures r == ParseWith(line, AsWritten)
  {
    if line == [] {
      return Invalid(J("Empty command"));
    }
    var t := ExtractStringField(line, TypeKey);
    if t.Threw? {
      return ParseError(t.input);
    }
    if t.Absent? {
      return Invalid(J("Missing type field"));
    }
    if t.value == CmdShutdown {
      r := Shutdown;
    } else if t.value == CmdGetThreadDump {
      r := GetThreadDump;
    } else if t.value == CmdRunSuite {
      var dataStart := IndexOfSeq(line, Quoted(DataKey));
      if dataStart < 0 {
        return Invalid(J("Missing data field for RunSuite"));
      }
      var section := line[dataStart..];
      var className := ExtractStringField(section, ClassNameKey);
      if className.Threw? {
        return ParseError(className.input);
      }
      var framework := ExtractStringField(section, FrameworkKey);
      if framework.Threw? {
        return ParseError(framework.input);
      }
      var args := ExtractStringArray(section, ArgsKey);
      if className.Absent? || framework.Absent? {
        return Invalid(J("Missing className or framework"));
      }
      r := RunSuite(className.value, framework.value, if args.Strings? then args.items else []);
    } else {
      r := Invalid(J("Unknown command type: ") + t.value);
    }
  }

  // ---------------------------------------------------------------------------
  // Reading messages back with the scanners
  // ---------------------------------------------------------------------------

  predicate Letter(c: JChar) {
    0x41 <= c <= 0x5A || 0x61 <= c <= 0x7A
  }

  /** ASCII letters only, as every key and type name is. */
  predicate Word(k: JString) {
    |k| > 0 && forall i | 0 <= i < |k| :: Letter(k[i])
  }

  lemma WordPlain(k: JString)
    requires Word(k)
    ensures QUOTE !in k && Escaped(k) == k
  {
    EscapedPlain(k);
  }

  /** A literal of ASCII letters. */
  lemma WordOf(s: string)
    requires |s| > 0 && forall i | 0 <= i < |s| :: 'A' <= s[i] <= 'Z' || 'a' <= s[i] <= 'z'
    ensures Word(J(s))
  {
  }

  lemma CommandWords()
    ensures Word(TypeKey) && Word(DataKey) && Word(ClassNameKey) && Word(FrameworkKey) && Word(ArgsKey)
    ensures Word(CmdRunSuite) && Word(CmdShutdown) && Word(CmdGetThreadDump)
    ensures TypeKey != DataKey && TypeKey != ArgsKey && DataKey != ArgsKey && ClassNameKey != FrameworkKey
    ensures CmdRunSuite != CmdShutdown && CmdRunSuite != CmdGetThreadDump && CmdShutdown != CmdGetThreadDump
  {
    WordOf("type");
    WordOf("data");
    WordOf("className");
    WordOf("framework");
    WordOf("args");
    WordOf("RunSuite");
    WordOf("Shutdown");
    WordOf("GetThreadDump");
    assert TypeKey[0] != DataKey[0] && TypeKey[0] != ArgsKey[0] && DataKey[0] != ArgsKey[0];
    assert ClassNameKey[0] != FrameworkKey[0];
    assert CmdRunSuite[0] != CmdShutdown[0];
  }

  /** Punctuation after a string: not empty, no quote, not starting with a letter. */
  predicate Sep(g: JString) {
    g != [] && QUOTE !in g && !Letter(g[0])
  }

  /** A value the search for `"k"` moves past: null, or a string whose written form holds no `"k"`. */
  predicate Skips(v: Option<JString>, k: JString) {
    v.None? || IndexOfSeq(Quoted(Escaped(v.value)), Quoted(k)) < 0
  }

  /** A string without quotes whose escaped text is not `k` is one. */
  lemma SkipsQuoteFree(v: JString, k: JString)
    requires Word(k) && QUOTE !in v && Escaped(v) != k
    ensures Skips(Some(v), k)
  {
    WordPlain(k);
    EscapedQuoteFree(v);
    QuoteFreeSkipped(Escaped(v), k);
  }

  /** Quotes inside a value are allowed: `"hi"`, quotes included, is passed over by the search for `"message"`. */
  lemma SkipsQuotes()
    ensures Skips(Some([QUOTE, 0x68, 0x69, QUOTE]), MessageKey)
  {
    var h: JString := [0x68, 0x69];
    assert [QUOTE, 0x68, 0x69, QUOTE] == [QUOTE] + (h + [QUOTE]);
    EscapedAppend([QUOTE], h + [QUOTE]);
    EscapedAppend(h, [QUOTE]);
    EscapedPlain(h);
    assert Escaped([QUOTE]) == [BACKSLASH, QUOTE];
  }

  /** A value that is a quote and then the key is not: `"message` is written `"\"message"`, which holds `"message"`. */
  lemma KeyAfterQuoteNotSkipped()
    ensures !Skips(Some([QUOTE] + MessageKey), MessageKey)
  {
    var v := [QUOTE] + MessageKey;
    WordOf("message");
    WordPlain(MessageKey);
    EscapedAppend([QUOTE], MessageKey);
    assert Escaped([QUOTE]) == [BACKSLASH, QUOTE];
    var q := Quoted(Escaped(v));
    assert q == [QUOTE, BACKSLASH] + Quoted(MessageKey);
    assert q[2..2 + |Quoted(MessageKey)|] == Quoted(MessageKey);
    IndexOfSeqFirst(q, Quoted(MessageKey), 2);
  }

  lemma {:induction false} PassableAppend(a: seq<Piece>, b: seq<Piece>, k: JString)
    requires Passable(a, k) && Passable(b, k)
    ensures Passable(a + b, k)
    decreases |a|
  {
    if a == [] {
      assert a + b == b;
    } else {
      assert (a + b)[1..] == a[1..] + b;
      PassableAppend(a[1..], b, k);
      if a[0].Str? {
        assert (a + b)[1] == a[1];
      }
    }
  }

  lemma PassGap(g: JString, k: JString)
    requires QUOTE !in g
    ensures Passable([Gap(g)], k)
  {
    assert [Gap(g)][1..] == [];
  }

  lemma PassTok(s: JString, sep: JString, k: JString)
    requires Word(k) && QUOTE !in s && s != k && Sep(sep)
    ensures Passable(Tok(s, sep), k)
  {
    var ps := Tok(s, sep);
    assert ps[1..] == [Gap(sep)];
    PassGap(sep, k);
    QuoteFreeSkipped(s, k);
  }

  lemma PassVal(v: Option<JString>, sep: JString, k: JString)
    requires Word(k) && Skips(v, k) && Sep(sep)
    ensures Passable(Val(v, sep), k)
  {
    var ps := Val(v, sep);
    assert ps[1..] == [Gap(sep)];
    PassGap(sep, k);
    if v.None? {
      assert J("null") == [0x6E, 0x75, 0x6C, 0x6C];
    }
  }

  lemma FieldPastGap(g: JString, ps: seq<Piece>, k: JString)
    requires Word(k) && QUOTE !in g
    ensures FieldOf(Render([Gap(g)] + ps), k) == FieldOf(Render(ps), k)
  {
    WordPlain(k);
    PassGap(g, k);
    FieldOfPassPieces([Gap(g)], ps, k);
  }

  lemma FieldPastTok(s: JString, sep: JString, ps: seq<Piece>, k: JString)
    requires Word(k) && QUOTE !in s && s != k && Sep(sep)
    ensures FieldOf(Render(Tok(s, sep) + ps), k) == FieldOf(Render(ps), k)
  {
    WordPlain(k);
    PassTok(s, sep, k);
    FieldOfPassPieces(Tok(s, sep), ps, k);
  }

  lemma FieldPastVal(v: Option<JString>, sep: JString, ps: seq<Piece>, k: JString)
    requires Word(k) && Skips(v, k) && Sep(sep)
    ensures FieldOf(Render(Val(v, sep) + ps), k) == FieldOf(Render(ps), k)
  {
    WordPlain(k);
    PassVal(v, sep, k);
    FieldOfPassPieces(Val(v, sep), ps, k);
  }

  /** At `"k":` the scanner reads the value `jsonString` wrote, and null for `null`. */
  lemma FieldAtKey(k: JString, v: Option<JString>, sep: JString, ps: seq<Piece>)
    ensures FieldOf(Render(Tok(k, [COLON]) + (Val(v, sep) + ps)), k) == (if v.Some? then Found(v.value) else Absent)
  {
    FieldOfKey(k, [COLON], Val(v, sep) + ps);
    ValueAtJson(v, sep, ps);
  }

  lemma ArrayPastTok(s: JString, sep: JString, ps: seq<Piece>, k: JString, mode: ArrayDecoding)
    requires Word(k) && QUOTE !in s && s != k && Sep(sep)
    ensures ArrayOf(Render(Tok(s, sep) + ps), k, mode) == ArrayOf(Render(ps), k, mode)
  {
    WordPlain(k);
    PassTok(s, sep, k);
    ArrayOfPassPieces(Tok(s, sep), ps, k, mode);
  }

  lemma ArrayPastVal(v: Option<JString>, sep: JString, ps: seq<Piece>, k: JString, mode: ArrayDecoding)
    requires Word(k) && Skips(v, k) && Sep(sep)
    ensures ArrayOf(Render(Val(v, sep) + ps), k, mode) == ArrayOf(Render(ps), k, mode)
  {
    WordPlain(k);
    PassVal(v, sep, k);
    ArrayOfPassPieces(Val(v, sep), ps, k, mode);
  }

  /** A plain string written as a fixed token reads like one written by `jsonString`. */
  lemma TokIsVal(t: JString, sep: JString)
    requires Word(t)
    ensures Tok(t, sep) == Val(Some(t), sep)
  {
    WordPlain(t);
  }

  /** The type of a message is the string after `"type":`. */
  lemma TypeOf(t: JString, sep: JString, ps: seq<Piece>)
    requires Word(t)
    ensures FieldOf(Render([Gap([LBRACE])] + (Tok(TypeKey, [COLON]) + (Tok(t, sep) + ps))), TypeKey) == Found(t)
  {
    CommandWords();
    FieldPastGap([LBRACE], Tok(TypeKey, [COLON]) + (Tok(t, sep) + ps), TypeKey);
    TokIsVal(t, sep);
    FieldAtKey(TypeKey, Some(t), sep, ps);
  }

  lemma BareType(t: JString)
    requires Word(t)
    ensures FieldOf(Render(Bare(t)), TypeKey) == Found(t) && Render(Bare(t)) != []
  {
    assert Tok(t, [RBRACE]) + [] == Tok(t, [RBRACE]);
    TypeOf(t, [RBRACE], []);
    assert Render(Bare(t))[0] == LBRACE;
  }

  lemma Nest2(a: seq<Piece>, b: seq<Piece>, c: seq<Piece>)
    ensures (a + b) + c == a + (b + c)
  {
  }

  lemma WithDataType(t: JString, data: seq<Piece>)
    requires Word(t)
    ensures FieldOf(Render(WithData(t, data)), TypeKey) == Found(t) && Render(WithData(t, data)) != []
  {
    var rest := Tok(DataKey, [COLON, LBRACE]) + data;
    Nest2(Tok(TypeKey, [COLON]), Tok(t, [COMMA]), rest);
    Nest2([Gap([LBRACE])], Tok(TypeKey, [COLON]) + Tok(t, [COMMA]), rest);
    TypeOf(t, [COMMA], rest);
    assert Render(WithData(t, data))[0] == LBRACE;
  }

  // ---------------------------------------------------------------------------
  // parseCommand on the encoded commands
  // ---------------------------------------------------------------------------

  /** `parseCommand(encodeShutdown())` is `Shutdown`. */
  lemma ShutdownParses(mode: ArrayDecoding)
    ensures ParseWith(EncodeShutdown(), mode) == Shutdown
  {
    CommandWords();
    BareType(CmdShutdown);
  }

  /** `{"type":"GetThreadDump"}` is `GetThreadDump`. */
  lemma GetThreadDumpParses(mode: ArrayDecoding)
    ensures ParseWith(Render(Bare(CmdGetThreadDump)), mode) == GetThreadDump
  {
    CommandWords();
    BareType(CmdGetThreadDump);
  }

  /** Any other type is rejected with its name, with or without data. */
  lemma UnknownTypeParses(t: JString, data: seq<Piece>, mode: ArrayDecoding)
    requires Word(t) && t != CmdShutdown && t != CmdGetThreadDump && t != CmdRunSuite
    ensures ParseWith(Render(Bare(t)), mode) == Invalid(J("Unknown command type: ") + t)
    ensures ParseWith(Render(WithData(t, data)), mode) == Invalid(J("Unknown command type: ") + t)
  {
    BareType(t);
    WithDataType(t, data);
  }

  /** A response read as a command is an unknown command. */
  lemma ResponsesAreNotCommands(suite: Option<JString>, test: Option<JString>, mode: ArrayDecoding)
    ensures ParseWith(EncodeReady(), mode) == Invalid(J("Unknown command type: ") + RespReady)
    ensures ParseWith(EncodeTestStarted(suite, test), mode) == Invalid(J("Unknown command type: ") + RespTestStarted)
  {
    WordOf("Ready");
    WordOf("TestStarted");
    UnknownTypeParses(RespReady, [], mode);
    UnknownTypeParses(RespTestStarted, TestStartedData(suite, test), mode);
  }

  /** `{"type":"RunSuite"}` has no data. */
  lemma RunSuiteWithoutData(mode: ArrayDecoding)
    ensures ParseWith(Render(Bare(CmdRunSuite)), mode) == Invalid(J("Missing data field for RunSuite"))
  {
    CommandWords();
    BareType(CmdRunSuite);
    BareHasNoData(CmdRunSuite);
  }

  lemma BareHasNoData(t: JString)
    requires Word(t) && t != DataKey
    ensures IndexOfSeq(Render(Bare(t)), Quoted(DataKey)) < 0
  {
    CommandWords();
    WordPlain(t);
    var ps := Bare(t);
    PassGap([LBRACE], DataKey);
    PassTok(TypeKey, [COLON], DataKey);
    PassTok(t, [RBRACE], DataKey);
    PassableAppend(Tok(TypeKey, [COLON]), Tok(t, [RBRACE]), DataKey);
    PassableAppend([Gap([LBRACE])], Tok(TypeKey, [COLON]) + Tok(t, [RBRACE]), DataKey);
    WordPlain(DataKey);
    PassIndex(ps, DataKey, []);
    assert Render(ps) + [] == Render(ps);
  }

  /** Where the data section of a message starts: at its `"data"` key. */
  lemma DataSection(t: JString, data: seq<Piece>)
    requires Word(t) && t != DataKey
    ensures var line := Render(WithData(t, data));
      var d := IndexOfSeq(line, Quoted(DataKey));
      0 <= d <= |line| && line[d..] == Render(Tok(DataKey, [COLON, LBRACE]) + data)
  {
    CommandWords();
    WordPlain(t);
    var h := Head(t);
    var rest := Tok(DataKey, [COLON, LBRACE]) + data;
    PassGap([LBRACE], DataKey);
    PassTok(TypeKey, [COLON], DataKey);
    PassTok(t, [COMMA], DataKey);
    PassableAppend(Tok(TypeKey, [COLON]), Tok(t, [COMMA]), DataKey);
    PassableAppend([Gap([LBRACE])], Tok(TypeKey, [COLON]) + Tok(t, [COMMA]), DataKey);
    RenderAppend(h, rest);
    RenderPair(Str(DataKey), [COLON, LBRACE], data);
    IndexFound(DataKey, [COLON, LBRACE] + Render(data));
    WordPlain(DataKey);
    PassIndex(h, DataKey, Render(rest));
    assert (Render(h) + Render(rest))[|Render(h)|..] == Render(rest);
  }

  /** The data section of an encoded `RunSuite`. */
  function RunSuiteSection(className: Option<JString>, framework: Option<JString>, args: seq<Option<JString>>): JString {
    Render(Tok(DataKey, [COLON, LBRACE]) + RunSuiteFields(className, framework, RunSuiteTail(args)))
  }

  lemma SectionClassName(className: Option<JString>, framework: Option<JString>, args: seq<Option<JString>>)
    ensures FieldOf(RunSuiteSection(className, framework, args), ClassNameKey)
         == (if className.Some? then Found(className.value) else Absent)
  {
    CommandWords();
    var fields := RunSuiteFields(className, framework, RunSuiteTail(args));
    FieldPastTok(DataKey, [COLON, LBRACE], fields, ClassNameKey);
    FieldAtKey(ClassNameKey, className, [COMMA],
      Tok(FrameworkKey, [COLON]) + (Val(framework, [COMMA]) + (Tok(ArgsKey, [COLON, LBRACKET]) + RunSuiteTail(args))));
  }

  /** The search for `"framework"` passes the class name, which must not look like the key. */
  lemma SectionFramework(className: Option<JString>, framework: Option<JString>, args: seq<Option<JString>>)
    requires Skips(className, FrameworkKey)
    ensures FieldOf(RunSuiteSection(className, framework, args), FrameworkKey)
         == (if framework.Some? then Found(framework.value) else Absent)
  {
    CommandWords();
    var tail := Tok(ArgsKey, [COLON, LBRACKET]) + RunSuiteTail(args);
    var f2 := Tok(FrameworkKey, [COLON]) + (Val(framework, [COMMA]) + tail);
    var f1 := Val(className, [COMMA]) + f2;
    FieldPastTok(DataKey, [COLON, LBRACE], Tok(ClassNameKey, [COLON]) + f1, FrameworkKey);
    FieldPastTok(ClassNameKey, [COLON], f1, FrameworkKey);
    FieldPastVal(className, [COMMA], f2, FrameworkKey);
    FieldAtKey(FrameworkKey, framework, [COMMA], tail);
  }

  /** The search for `"args"` passes both names. */
  lemma SectionArgs(className: Option<JString>, framework: Option<JString>, args: seq<Option<JString>>, mode: ArrayDecoding)
    requires Skips(className, ArgsKey) && Skips(framework, ArgsKey)
    ensures ArrayOf(RunSuiteSection(className, framework, args), ArgsKey, mode) == Strings(ReadArgs(args, mode))
  {
    CommandWords();
    var tail := Tok(ArgsKey, [COLON, LBRACKET]) + RunSuiteTail(args);
    var f3 := Val(framework, [COMMA]) + tail;
    var f2 := Tok(FrameworkKey, [COLON]) + f3;
    var f1 := Val(className, [COMMA]) + f2;
    ArrayPastTok(DataKey, [COLON, LBRACE], Tok(ClassNameKey, [COLON]) + f1, ArgsKey, mode);
    ArrayPastTok(ClassNameKey, [COLON], f1, ArgsKey, mode);
    ArrayPastVal(className, [COMMA], f2, ArgsKey, mode);
    ArrayPastTok(FrameworkKey, [COLON], f3, ArgsKey, mode);
    ArrayPastVal(framework, [COMMA], tail, ArgsKey, mode);
    ArrayOfKey(ArgsKey, [COLON, LBRACKET], RunSuiteTail(args), mode);
    ArrayAfterList(args, [RBRACKET, RBRACE, RBRACE], mode);
  }

  /**
   * `parseCommand(encodeRunSuite(c, f, args))`: the class name, the
   * framework, and the list as the array scanner reads it back; a null name
   * is a missing one. The class name must not contain a quote nor escape to
   * `framework` or `args`, and the framework must not escape to `args`.
   */
  lemma RunSuiteRoundTrip(className: Option<JString>, framework: Option<JString>, args: seq<Option<JString>>, mode: ArrayDecoding)
    requires Skips(className, FrameworkKey) && Skips(className, ArgsKey) && Skips(framework, ArgsKey)
    ensures ParseWith(Render(RunSuitePieces(className, framework, args)), mode)
         == if className.Some? && framework.Some? then RunSuite(className.value, framework.value, ReadArgs(args, mode))
            else Invalid(J("Missing className or framework"))
  {
    CommandWords();
    var fields := RunSuiteFields(className, framework, RunSuiteTail(args));
    WithDataType(CmdRunSuite, fields);
    DataSection(CmdRunSuite, fields);
    SectionParses(className, framework, args, mode);
  }

  /** The data section of an encoded `RunSuite` gives back its fields. */
  lemma SectionParses(className: Option<JString>, framework: Option<JString>, args: seq<Option<JString>>, mode: ArrayDecoding)
    requires Skips(className, FrameworkKey) && Skips(className, ArgsKey) && Skips(framework, ArgsKey)
    ensures RunSuiteOf(RunSuiteSection(className, framework, args), mode)
         == if className.Some? && framework.Some? then RunSuite(className.value, framework.value, ReadArgs(args, mode))
            else Invalid(J("Missing className or framework"))
  {
    SectionClassName(className, framework, args);
    SectionFramework(className, framework, args);
    SectionArgs(className, framework, args, mode);
  }

  /** The data of a `RunSuite` without `args`: `"className":…,"framework":…}}`. */
  function NoArgsFields(className: Option<JString>, framework: Option<JString>): seq<Piece> {
    Tok(ClassNameKey, [COLON]) + (Val(className, [COMMA]) + (Tok(FrameworkKey, [COLON]) + (Val(framework, Close) + [])))
  }

  function NoArgsSection(className: Option<JString>, framework: Option<JString>): JString {
    Render(Tok(DataKey, [COLON, LBRACE]) + NoArgsFields(className, framework))
  }

  lemma NoArgsClassName(className: Option<JString>, framework: Option<JString>)
    ensures FieldOf(NoArgsSection(className, framework), ClassNameKey)
         == (if className.Some? then Found(className.value) else Absent)
  {
    CommandWords();
    FieldPastTok(DataKey, [COLON, LBRACE], NoArgsFields(className, framework), ClassNameKey);
    FieldAtKey(ClassNameKey, className, [COMMA], Tok(FrameworkKey, [COLON]) + (Val(framework, Close) + []));
  }

  lemma NoArgsFramework(className: Option<JString>, framework: Option<JString>)
    requires Skips(className, FrameworkKey)
    ensures FieldOf(NoArgsSection(className, framework), FrameworkKey)
         == (if framework.Some? then Found(framework.value) else Absent)
  {
    CommandWords();
    var f2 := Tok(FrameworkKey, [COLON]) + (Val(framework, Close) + []);
    var f1 := Val(className, [COMMA]) + f2;
    FieldPastTok(DataKey, [COLON, LBRACE], Tok(ClassNameKey, [COLON]) + f1, FrameworkKey);
    FieldPastTok(ClassNameKey, [COLON], f1, FrameworkKey);
    FieldPastVal(className, [COMMA], f2, FrameworkKey);
    FieldAtKey(FrameworkKey, framework, Close, []);
  }

  lemma ArrayOfEmpty(k: JString, mode: ArrayDecoding)
    ensures ArrayOf(Render([]), k, mode) == NoStrings
  {
    assert Render([]) == [];
    IndexFound([], Quoted(k));
  }

  /** Without an `"args"` key the array scanner finds nothing. */
  lemma NoArgsArray(className: Option<JString>, framework: Option<JString>, mode: ArrayDecoding)
    requires Skips(className, ArgsKey) && Skips(framework, ArgsKey)
    ensures ArrayOf(NoArgsSection(className, framework), ArgsKey, mode) == NoStrings
  {
    CommandWords();
    var f3 := Val(framework, Close) + [];
    var f2 := Tok(FrameworkKey, [COLON]) + f3;
    var f1 := Val(className, [COMMA]) + f2;
    ArrayPastTok(DataKey, [COLON, LBRACE], Tok(ClassNameKey, [COLON]) + f1, ArgsKey, mode);
    ArrayPastTok(ClassNameKey, [COLON], f1, ArgsKey, mode);
    ArrayPastVal(className, [COMMA], f2, ArgsKey, mode);
    ArrayPastLastMember(FrameworkKey, framework, ArgsKey, mode);
  }

  lemma ArrayPastLastMember(key: JString, v: Option<JString>, k: JString, mode: ArrayDecoding)
    requires Word(key) && Word(k) && k != key && Skips(v, k)
    ensures ArrayOf(Render(Tok(key, [COLON]) + (Val(v, Close) + [])), k, mode) == NoStrings
  {
    WordPlain(key);
    ArrayPastTok(key, [COLON], Val(v, Close) + [], k, mode);
    ArrayPastVal(v, Close, [], k, mode);
    ArrayOfEmpty(k, mode);
  }

  lemma NoArgsSectionParses(className: Option<JString>, framework: Option<JString>, mode: ArrayDecoding)
    requires Skips(className, FrameworkKey) && Skips(className, ArgsKey) && Skips(framework, ArgsKey)
    ensures RunSuiteOf(NoArgsSection(className, framework), mode)
         == if className.Some? && framework.Some? then RunSuite(className.value, framework.value, [])
            else Invalid(J("Missing className or framework"))
  {
    NoArgsClassName(className, framework);
    NoArgsFramework(className, framework);
    NoArgsArray(className, framework, mode);
  }

  /** A `RunSuite` whose data has no `args` runs the suite with no arguments. */
  lemma RunSuiteMissingArgs(className: Option<JString>, framework: Option<JString>, mode: ArrayDecoding)
    requires Skips(className, FrameworkKey) && Skips(className, ArgsKey) && Skips(framework, ArgsKey)
    ensures ParseWith(Render(WithData(CmdRunSuite, NoArgsFields(className, framework))), mode)
         == if className.Some? && framework.Some? then RunSuite(className.value, framework.value, [])
            else Invalid(J("Missing className or framework"))
  {
    CommandWords();
    var fields := NoArgsFields(className, framework);
    WithDataType(CmdRunSuite, fields);
    DataSection(CmdRunSuite, fields);
    NoArgsSectionParses(className, framework, mode);
  }

  /** With escapes read back correctly, a `RunSuite` command comes back whole, its null arguments dropped. */
  lemma RunSuiteRoundTripCorrected(className: JString, framework: JString, args: seq<Option<JString>>)
    requires Skips(Some(className), FrameworkKey) && Skips(Some(className), ArgsKey) && Skips(Some(framework), ArgsKey)
    ensures ParseWith(Render(RunSuitePieces(Some(className), Some(framework), args)), Corrected)
         == RunSuite(className, framework, NonNull(args))
  {
    RunSuiteRoundTrip(Some(className), Some(framework), args, Corrected);
    ReadArgsCorrected(args);
  }

  /** As written, the same holds for arguments whose characters all survive the array scanner. */
  lemma RunSuiteRoundTripAsWritten(className: JString, framework: JString, args: seq<Option<JString>>)
    requires Skips(Some(className), FrameworkKey) && Skips(Some(className), ArgsKey) && Skips(Some(framework), ArgsKey)
    requires forall i, j | 0 <= i < |args| && args[i].Some? && 0 <= j < |args[i].value| :: Survives(args[i].value[j])
    ensures ParseWith(Render(RunSuitePieces(Some(className), Some(framework), args)), AsWritten)
         == RunSuite(className, framework, NonNull(args))
  {
    RunSuiteRoundTrip(Some(className), Some(framework), args, AsWritten);
    ReadArgsAsWritten(args);
  }

  /** An argument holding a backspace is sent as `\b` and read back by `parseCommand` as the letter `b`. */
  lemma BackspaceArgument(className: JString, framework: JString)
    requires Skips(Some(className), FrameworkKey) && Skips(Some(className), ArgsKey) && Skips(Some(framework), ArgsKey)
    ensures ParseWith(Render(RunSuitePieces(Some(className), Some(framework), [Some([0x08])])), AsWritten)
         == RunSuite(className, framework, [[0x62]])
  {
    RunSuiteRoundTrip(Some(className), Some(framework), [Some([0x08])], AsWritten);
    BackspaceReadsAsB();
    assert ReadArgs([Some([0x08])], AsWritten) == [ReadText([0x08], AsWritten)] + ReadArgs([], AsWritten);
  }

  // ---------------------------------------------------------------------------
  // Optional members, read back with the field scanner
  // ---------------------------------------------------------------------------

  /** The field scanner finds nothing in an empty text. */
  lemma FieldOfEmpty(k: JString)
    ensures FieldOf(Render([]), k) == Absent
  {
    assert Render([]) == [];
    IndexFound([], Quoted(k));
  }

  /** The punctuation that opens `ThrowableTail(t)`: a comma, or `}}` when there is no throwable. */
  function ThrowableGap(throwable: Option<JString>): JString {
    if throwable.Some? then [COMMA] else Close
  }

  /** What follows that punctuation. */
  function ThrowableRest(throwable: Option<JString>): seq<Piece> {
    if throwable.Some? then Tok(ThrowableKey, [COLON]) + (Val(throwable, Close) + []) else []
  }

  lemma ThrowableShape(throwable: Option<JString>)
    ensures ThrowableTail(throwable) == [Gap(ThrowableGap(throwable))] + ThrowableRest(throwable)
    ensures Sep(ThrowableGap(throwable))
  {
    if throwable.Some? {
      var opt := [Gap([COMMA])] + (Tok(ThrowableKey, [COLON]) + [JsonPiece(throwable)]);
      Nest2([Gap([COMMA])], Tok(ThrowableKey, [COLON]) + [JsonPiece(throwable)], [Gap(Close)]);
      Nest2(Tok(ThrowableKey, [COLON]), [JsonPiece(throwable)], [Gap(Close)]);
      assert [JsonPiece(throwable)] + [Gap(Close)] == Val(throwable, Close) + [];
    }
  }

  lemma ThrowableRestField(throwable: Option<JString>)
    ensures FieldOf(Render(ThrowableRest(throwable)), ThrowableKey)
         == (if throwable.Some? then Found(throwable.value) else Absent)
  {
    if throwable.Some? {
      FieldAtKey(ThrowableKey, throwable, Close, []);
    } else {
      FieldOfEmpty(ThrowableKey);
    }
  }

  /** Any other key is not found after the place of `throwable`. */
  lemma ThrowableRestAbsent(throwable: Option<JString>, k: JString)
    requires Word(k) && k != ThrowableKey && Skips(throwable, k)
    ensures FieldOf(Render(ThrowableRest(throwable)), k) == Absent
  {
    if throwable.Some? {
      PastLastMember(ThrowableKey, throwable, k);
    } else {
      FieldOfEmpty(k);
    }
  }

  /** A search for another key runs past a last member `"<key>":<v>}}`. */
  lemma PastLastMember(key: JString, v: Option<JString>, k: JString)
    requires Word(key) && Word(k) && k != key && Skips(v, k)
    ensures FieldOf(Render(Tok(key, [COLON]) + (Val(v, Close) + [])), k) == Absent
  {
    WordPlain(key);
    FieldPastTok(key, [COLON], Val(v, Close) + [], k);
    FieldPastVal(v, Close, [], k);
    FieldOfEmpty(k);
  }

  /** `"throwable"` is present exactly when the throwable is not null. */
  lemma ThrowableTailField(throwable: Option<JString>)
    ensures FieldOf(Render(ThrowableTail(throwable)), ThrowableKey)
         == (if throwable.Some? then Found(throwable.value) else Absent)
  {
    WordOf("throwable");
    ThrowableShape(throwable);
    FieldPastGap(ThrowableGap(throwable), ThrowableRest(throwable), ThrowableKey);
    ThrowableRestField(throwable);
  }

  /** A present optional member, regrouped around the value's closing punctuation. */
  lemma OptionalSome(k: JString, v: Option<JString>, g: JString, rest: seq<Piece>)
    requires v.Some?
    ensures Optional(k, v) + ([Gap(g)] + rest) == [Gap([COMMA])] + (Tok(k, [COLON]) + (Val(v, g) + rest))
  {
    var tok := Tok(k, [COLON]) + [JsonPiece(v)];
    Nest2([Gap([COMMA])], tok, [Gap(g)] + rest);
    Nest2(Tok(k, [COLON]), [JsonPiece(v)], [Gap(g)] + rest);
    Nest2([JsonPiece(v)], [Gap(g)], rest);
  }

  /** In `TestFinished`, `"message"` is present exactly when the message is not null. */
  lemma TailMessage(message: Option<JString>, throwable: Option<JString>)
    requires Skips(throwable, MessageKey)
    ensures FieldOf(Render(TestFinishedTail(message, throwable)), MessageKey)
         == (if message.Some? then Found(message.value) else Absent)
  {
    WordOf("message");
    ThrowableShape(throwable);
    var g, rest := ThrowableGap(throwable), ThrowableRest(throwable);
    if message.Some? {
      OptionalSome(MessageKey, message, g, rest);
      FieldPastGap([COMMA], Tok(MessageKey, [COLON]) + (Val(message, g) + rest), MessageKey);
      FieldAtKey(MessageKey, message, g, rest);
    } else {
      assert TestFinishedTail(message, throwable) == [Gap(g)] + rest;
      FieldPastGap(g, rest, MessageKey);
      ThrowableRestAbsent(throwable, MessageKey);
    }
  }

  /** In `TestFinished`, `"throwable"` is present exactly when the throwable is not null. */
  lemma TailThrowable(message: Option<JString>, throwable: Option<JString>)
    requires Skips(message, ThrowableKey)
    ensures FieldOf(Render(TestFinishedTail(message, throwable)), ThrowableKey)
         == (if throwable.Some? then Found(throwable.value) else Absent)
  {
    WordOf("message");
    WordOf("throwable");
    WordPlain(MessageKey);
    ThrowableShape(throwable);
    var g, rest := ThrowableGap(throwable), ThrowableRest(throwable);
    if message.Some? {
      OptionalSome(MessageKey, message, g, rest);
      FieldPastGap([COMMA], Tok(MessageKey, [COLON]) + (Val(message, g) + rest), ThrowableKey);
      FieldPastTok(MessageKey, [COLON], Val(message, g) + rest, ThrowableKey);
      FieldPastVal(message, g, rest, ThrowableKey);
      ThrowableRestField(throwable);
    } else {
      assert TestFinishedTail(message, throwable) == ThrowableTail(throwable);
      ThrowableTailField(throwable);
    }
  }

  /** Past `{"type":"<t>","data":{`: the search for a key of the data goes on in the data. */
  lemma PastHead(t: JString, data: seq<Piece>, k: JString)
    requires Word(t) && Word(k) && k != TypeKey && k != t && k != DataKey
    ensures FieldOf(Render(WithData(t, data)), k) == FieldOf(Render(data), k)
  {
    CommandWords();
    WordPlain(t);
    WordPlain(TypeKey);
    WordPlain(DataKey);
    var rest := Tok(DataKey, [COLON, LBRACE]) + data;
    Nest2(Tok(TypeKey, [COLON]), Tok(t, [COMMA]), rest);
    Nest2([Gap([LBRACE])], Tok(TypeKey, [COLON]) + Tok(t, [COMMA]), rest);
    FieldPastGap([LBRACE], Tok(TypeKey, [COLON]) + (Tok(t, [COMMA]) + rest), k);
    FieldPastTok(TypeKey, [COLON], Tok(t, [COMMA]) + rest, k);
    FieldPastTok(t, [COMMA], rest, k);
    FieldPastTok(DataKey, [COLON, LBRACE], data, k);
  }

  /** Past the fixed members of `TestFinished`. */
  lemma PastFinishedFields(suite: Option<JString>, test: Option<JString>, status: Option<JString>, durationMs: int,
                           message: Option<JString>, throwable: Option<JString>, k: JString)
    requires Word(k) && k != SuiteKey && k != TestKey && k != StatusKey && k != DurationKey
    requires Skips(suite, k) && Skips(test, k) && Skips(status, k)
    ensures FieldOf(Render(TestFinishedData(suite, test, status, durationMs, message, throwable)), k)
         == FieldOf(Render(TestFinishedTail(message, throwable)), k)
  {
    WordOf("suite");
    WordOf("test");
    WordOf("status");
    WordOf("durationMs");
    WordPlain(SuiteKey);
    WordPlain(TestKey);
    WordPlain(StatusKey);
    WordPlain(DurationKey);
    var tail := TestFinishedTail(message, throwable);
    var p4 := [Gap(DecimalText(durationMs))] + tail;
    var p3 := Val(status, [COMMA]) + (Tok(DurationKey, [COLON]) + p4);
    var p2 := Val(test, [COMMA]) + (Tok(StatusKey, [COLON]) + p3);
    var p1 := Val(suite, [COMMA]) + (Tok(TestKey, [COLON]) + p2);
    FieldPastTok(SuiteKey, [COLON], p1, k);
    FieldPastVal(suite, [COMMA], Tok(TestKey, [COLON]) + p2, k);
    FieldPastTok(TestKey, [COLON], p2, k);
    FieldPastVal(test, [COMMA], Tok(StatusKey, [COLON]) + p3, k);
    FieldPastTok(StatusKey, [COLON], p3, k);
    FieldPastVal(status, [COMMA], Tok(DurationKey, [COLON]) + p4, k);
    FieldPastTok(DurationKey, [COLON], p4, k);
    assert QUOTE !in DecimalText(durationMs);
    FieldPastGap(DecimalText(durationMs), tail, k);
  }

  /** `encodeTestFinished` writes `"message"` exactly when the message is not null. */
  lemma TestFinishedMessage(suite: Option<JString>, test: Option<JString>, status: Option<JString>, durationMs: int,
                            message: Option<JString>, throwable: Option<JString>)
    requires Skips(suite, MessageKey) && Skips(test, MessageKey) && Skips(status, MessageKey) && Skips(throwable, MessageKey)
    ensures FieldOf(EncodeTestFinished(suite, test, status, durationMs, message, throwable), MessageKey)
         == (if message.Some? then Found(message.value) else Absent)
  {
    WordOf("message");
    WordOf("TestFinished");
    PastHead(RespTestFinished, TestFinishedData(suite, test, status, durationMs, message, throwable), MessageKey);
    PastFinishedFields(suite, test, status, durationMs, message, throwable, MessageKey);
    TailMessage(message, throwable);
  }

  /** `encodeTestFinished` writes `"throwable"` exactly when the throwable is not null. */
  lemma TestFinishedThrowable(suite: Option<JString>, test: Option<JString>, status: Option<JString>, durationMs: int,
                              message: Option<JString>, throwable: Option<JString>)
    requires Skips(suite, ThrowableKey) && Skips(test, ThrowableKey) && Skips(status, ThrowableKey) && Skips(message, ThrowableKey)
    ensures FieldOf(EncodeTestFinished(suite, test, status, durationMs, message, throwable), ThrowableKey)
         == (if throwable.Some? then Found(throwable.value) else Absent)
  {
    WordOf("throwable");
    WordOf("TestFinished");
    PastHead(RespTestFinished, TestFinishedData(suite, test, status, durationMs, message, throwable), ThrowableKey);
    PastFinishedFields(suite, test, status, durationMs, message, throwable, ThrowableKey);
    TailThrowable(message, throwable);
  }

  lemma ErrorShape(message: Option<JString>, throwable: Option<JString>)
    ensures ErrorData(message, throwable)
         == Tok(MessageKey, [COLON]) + (Val(message, ThrowableGap(throwable)) + ThrowableRest(throwable))
  {
    ThrowableShape(throwable);
    Nest2([JsonPiece(message)], [Gap(ThrowableGap(throwable))], ThrowableRest(throwable));
  }

  /** `encodeError` always writes its message (null as `null`). */
  lemma ErrorMessage(message: Option<JString>, throwable: Option<JString>)
    ensures FieldOf(EncodeError(message, throwable), MessageKey)
         == (if message.Some? then Found(message.value) else Absent)
  {
    WordOf("message");
    WordOf("Error");
    PastHead(RespError, ErrorData(message, throwable), MessageKey);
    ErrorShape(message, throwable);
    FieldAtKey(MessageKey, message, ThrowableGap(throwable), ThrowableRest(throwable));
  }

  /** `encodeError` writes `"throwable"` exactly when the throwable is not null. */
  lemma ErrorThrowable(message: Option<JString>, throwable: Option<JString>)
    requires Skips(message, ThrowableKey)
    ensures FieldOf(EncodeError(message, throwable), ThrowableKey)
         == (if throwable.Some? then Found(throwable.value) else Absent)
  {
    WordOf("throwable");
    WordOf("Error");
    PastHead(RespError, ErrorData(message, throwable), ThrowableKey);
    ErrorDataThrowable(message, throwable);
  }

  /** `encodeLog` writes its message after the level, which the search moves past. */
  lemma LogMessage(level: Option<JString>, message: Option<JString>)
    requires Skips(level, MessageKey)
    ensures FieldOf(EncodeLog(level, message), MessageKey)
         == (if message.Some? then Found(message.value) else Absent)
  {
    WordOf("message");
    WordOf("level");
    WordOf("Log");
    WordPlain(LevelKey);
    var tail := Tok(MessageKey, [COLON]) + Val(message, Close);
    PastHead(RespLog, LogData(level, message), MessageKey);
    FieldPastTok(LevelKey, [COLON], Val(level, [COMMA]) + tail, MessageKey);
    FieldPastVal(level, [COMMA], tail, MessageKey);
    assert Val(message, Close) + [] == Val(message, Close);
    FieldAtKey(MessageKey, message, Close, []);
  }

  /** The level `warn` is passed over by the search for `"message"`. */
  lemma WarnSkipped()
    ensures Skips(Some(J("warn")), MessageKey)
  {
    WordOf("message");
    EscapedPlain(J("warn"));
    SkipsQuoteFree(J("warn"), MessageKey);
  }

  lemma ErrorDataThrowable(message: Option<JString>, throwable: Option<JString>)
    requires Skips(message, ThrowableKey)
    ensures FieldOf(Render(ErrorData(message, throwable)), ThrowableKey)
         == (if throwable.Some? then Found(throwable.value) else Absent)
  {
    WordOf("message");
    WordOf("throwable");
    WordPlain(MessageKey);
    ErrorShape(message, throwable);
    ThrowableShape(throwable);
    var g, rest := ThrowableGap(throwable), ThrowableRest(throwable);
    FieldPastTok(MessageKey, [COLON], Val(message, g) + rest, ThrowableKey);
    FieldPastVal(message, g, rest, ThrowableKey);
    ThrowableRestField(throwable);
  }

  // ---------------------------------------------------------------------------
  // Every message is one line
  // ---------------------------------------------------------------------------

  predicate LinePieces(ps: seq<Piece>) {
    forall p | p in ps :: OneLine(PieceText(p))
  }

  lemma {:induction false} RenderOneLine(ps: seq<Piece>)
    requires LinePieces(ps)
    ensures OneLine(Render(ps))
    decreases |ps|
  {
    if ps != [] {
      assert forall p | p in ps[1..] :: p in ps;
      RenderOneLine(ps[1..]);
      assert Render(ps) == PieceText(ps[0]) + Render(ps[1..]);
    }
  }

  lemma LineTok(s: JString, sep: JString)
    requires OneLine(s) && OneLine(sep)
    ensures LinePieces(Tok(s, sep))
  {
    assert PieceText(Str(s)) == [QUOTE] + s + [QUOTE];
  }

  lemma LineVal(v: Option<JString>, sep: JString)
    requires OneLine(sep)
    ensures LinePieces(Val(v, sep))
  {
    JsonTextOneLine(v);
  }

  lemma LineNum(n: int, sep: JString)
    requires OneLine(sep)
    ensures LinePieces(Num(n, sep))
  {
    var d := DecimalText(n);
    assert LF !in d && CR !in d;
  }

  lemma LineOptional(k: JString, v: Option<JString>)
    requires OneLine(k)
    ensures LinePieces(Optional(k, v))
  {
    if v.Some? {
      LineTok(k, [COLON]);
      JsonTextOneLine(v);
    }
  }

  lemma LineWithData(t: JString, data: seq<Piece>)
    requires OneLine(t) && LinePieces(data)
    ensures LinePieces(WithData(t, data)) && LinePieces(Bare(t))
  {
    LiteralOneLine("type");
    LiteralOneLine("data");
    LineTok(TypeKey, [COLON]);
    LineTok(t, [COMMA]);
    LineTok(t, [RBRACE]);
    LineTok(DataKey, [COLON, LBRACE]);
  }

  lemma {:induction false} LineStringList(vs: seq<Option<JString>>)
    ensures LinePieces(StringList(vs))
    decreases |vs|
  {
    if vs != [] {
      JsonTextOneLine(vs[0]);
      if |vs| > 1 {
        LineStringList(vs[1..]);
      }
    }
  }

  lemma {:induction false} LineJoined(xs: seq<seq<Piece>>)
    requires forall i | 0 <= i < |xs| :: LinePieces(xs[i])
    ensures LinePieces(Joined(xs))
    decreases |xs|
  {
    if |xs| > 1 {
      LineJoined(xs[1..]);
    }
  }

  lemma LineEntry(e: ThreadDumpEntry)
    ensures LinePieces(EntryPieces(e))
  {
    LiteralOneLine("name");
    LiteralOneLine("state");
    LiteralOneLine("stackTrace");
    LineTok(NameKey, [COLON]);
    LineVal(e.name, [COMMA]);
    LineTok(StateKey, [COLON]);
    LineVal(e.state, [COMMA]);
    LineTok(StackTraceKey, [COLON, LBRACKET]);
    LineStringList(e.stackTrace);
  }

  /** `Ready`, `Shutdown` and `TestStarted` are single lines. */
  lemma ShortMessagesOneLine(suite: Option<JString>, test: Option<JString>)
    ensures OneLine(EncodeReady()) && OneLine(EncodeShutdown())
    ensures OneLine(EncodeTestStarted(suite, test))
  {
    LiteralOneLine("Ready");
    LiteralOneLine("Shutdown");
    LiteralOneLine("TestStarted");
    LiteralOneLine("suite");
    LiteralOneLine("test");
    LineTok(SuiteKey, [COLON]);
    LineVal(suite, [COMMA]);
    LineTok(TestKey, [COLON]);
    LineVal(test, Close);
    LineWithData(RespReady, []);
    LineWithData(CmdShutdown, []);
    LineWithData(RespTestStarted, TestStartedData(suite, test));
    RenderOneLine(Bare(RespReady));
    RenderOneLine(Bare(CmdShutdown));
    RenderOneLine(WithData(RespTestStarted, TestStartedData(suite, test)));
  }

  lemma LineFinishedTail(message: Option<JString>, throwable: Option<JString>)
    ensures LinePieces(TestFinishedTail(message, throwable))
  {
    LiteralOneLine("message");
    LiteralOneLine("throwable");
    LineOptional(MessageKey, message);
    LineOptional(ThrowableKey, throwable);
  }

  lemma LineFinishedData(suite: Option<JString>, test: Option<JString>, status: Option<JString>, durationMs: int,
                         message: Option<JString>, throwable: Option<JString>)
    ensures LinePieces(TestFinishedData(suite, test, status, durationMs, message, throwable))
  {
    LiteralOneLine("suite");
    LiteralOneLine("test");
    LiteralOneLine("status");
    LiteralOneLine("durationMs");
    LineTok(SuiteKey, [COLON]);
    LineVal(suite, [COMMA]);
    LineTok(TestKey, [COLON]);
    LineVal(test, [COMMA]);
    LineTok(StatusKey, [COLON]);
    LineVal(status, [COMMA]);
    LineTok(DurationKey, [COLON]);
    var d := DecimalText(durationMs);
    assert LF !in d && CR !in d;
    LineFinishedTail(message, throwable);
  }

  /** `TestFinished` is a single line, whatever its texts hold. */
  lemma TestFinishedOneLine(suite: Option<JString>, test: Option<JString>, status: Option<JString>, durationMs: int,
                            message: Option<JString>, throwable: Option<JString>)
    ensures OneLine(EncodeTestFinished(suite, test, status, durationMs, message, throwable))
  {
    LiteralOneLine("TestFinished");
    var data := TestFinishedData(suite, test, status, durationMs, message, throwable);
    LineFinishedData(suite, test, status, durationMs, message, throwable);
    LineWithData(RespTestFinished, data);
    RenderOneLine(WithData(RespTestFinished, data));
  }

  /** `SuiteDone` is a single line. */
  lemma SuiteDoneOneLine(suite: Option<JString>, passed: int, failed: int, skipped: int, ignored: int, durationMs: int)
    ensures OneLine(EncodeSuiteDone(suite, passed, failed, skipped, ignored, durationMs))
  {
    LiteralOneLine("SuiteDone");
    LiteralOneLine("suite");
    LiteralOneLine("passed");
    LiteralOneLine("failed");
    LiteralOneLine("skipped");
    LiteralOneLine("ignored");
    LiteralOneLine("durationMs");
    LineTok(SuiteKey, [COLON]);
    LineVal(suite, [COMMA]);
    LineTok(PassedKey, [COLON]);
    LineNum(passed, [COMMA]);
    LineTok(FailedKey, [COLON]);
    LineNum(failed, [COMMA]);
    LineTok(SkippedKey, [COLON]);
    LineNum(skipped, [COMMA]);
    LineTok(IgnoredKey, [COLON]);
    LineNum(ignored, [COMMA]);
    LineTok(DurationKey, [COLON]);
    LineNum(durationMs, Close);
    var data := SuiteDoneData(suite, passed, failed, skipped, ignored, durationMs);
    LineWithData(RespSuiteDone, data);
    RenderOneLine(WithData(RespSuiteDone, data));
  }

  /** `Log` and `Error` are single lines, whatever their texts hold. */
  lemma LogAndErrorOneLine(level: Option<JString>, message: Option<JString>, throwable: Option<JString>)
    ensures OneLine(EncodeLog(level, message))
    ensures OneLine(EncodeError(message, throwable))
  {
    LiteralOneLine("Log");
    LiteralOneLine("Error");
    LiteralOneLine("level");
    LiteralOneLine("message");
    LiteralOneLine("throwable");
    LineTok(LevelKey, [COLON]);
    LineVal(level, [COMMA]);
    LineTok(MessageKey, [COLON]);
    LineVal(message, Close);
    JsonTextOneLine(message);
    LineOptional(ThrowableKey, throwable);
    LineWithData(RespLog, LogData(level, message));
    LineWithData(RespError, ErrorData(message, throwable));
    RenderOneLine(WithData(RespLog, LogData(level, message)));
    RenderOneLine(WithData(RespError, ErrorData(message, throwable)));
  }

  /** `ThreadDump` is a single line, whatever the stack traces hold. */
  lemma ThreadDumpOneLine(threads: seq<ThreadDumpEntry>)
    ensures OneLine(Render(ThreadDumpPieces(threads)))
  {
    LiteralOneLine("ThreadDump");
    LiteralOneLine("threads");
    forall i | 0 <= i < |Entries(threads)|
      ensures LinePieces(Entries(threads)[i])
    {
      LineEntry(threads[i]);
    }
    LineJoined(Entries(threads));
    LineTok(ThreadsKey, [COLON, LBRACKET]);
    LineWithData(RespThreadDump, Tok(ThreadsKey, [COLON, LBRACKET]));
    RenderOneLine(ThreadDumpPieces(threads));
  }

  /** `RunSuite` is a single line, whatever its names and arguments hold. */
  lemma RunSuiteOneLine(className: Option<JString>, framework: Option<JString>, args: seq<Option<JString>>)
    ensures OneLine(Render(RunSuitePieces(className, framework, args)))
  {
    LiteralOneLine("RunSuite");
    var fields := RunSuiteFields(className, framework, RunSuiteTail(args));
    LineRunSuiteFields(className, framework, args);
    LineWithData(CmdRunSuite, fields);
    RenderOneLine(WithData(CmdRunSuite, fields));
  }

  lemma LineConcat(a: seq<Piece>, b: seq<Piece>)
    requires LinePieces(a) && LinePieces(b)
    ensures LinePieces(a + b)
  {
  }

  lemma LineRunSuiteFields(className: Option<JString>, framework: Option<JString>, args: seq<Option<JString>>)
    ensures LinePieces(RunSuiteFields(className, framework, RunSuiteTail(args)))
  {
    LiteralOneLine("className");
    LiteralOneLine("framework");
    LiteralOneLine("args");
    LineStringList(args);
    var tail := RunSuiteTail(args);
    LineConcat(StringList(args), [Gap([RBRACKET, RBRACE, RBRACE])]);
    LineTok(ArgsKey, [COLON, LBRACKET]);
    var t1 := Tok(ArgsKey, [COLON, LBRACKET]) + tail;
    LineConcat(Tok(ArgsKey, [COLON, LBRACKET]), tail);
    LineVal(framework, [COMMA]);
    var t2 := Val(framework, [COMMA]) + t1;
    LineConcat(Val(framework, [COMMA]), t1);
    LineTok(FrameworkKey, [COLON]);
    var t3 := Tok(FrameworkKey, [COLON]) + t2;
    LineConcat(Tok(FrameworkKey, [COLON]), t2);
    LineVal(className, [COMMA]);
    var t4 := Val(className, [COMMA]) + t3;
    LineConcat(Val(className, [COMMA]), t3);
    LineTok(ClassNameKey, [COLON]);
    LineConcat(Tok(ClassNameKey, [COLON]), t4);
  }

  /** Appending a thread to the dump appends a comma (after the first) and that thread's entry. */
  lemma ThreadDumpOrder(threads: seq<ThreadDumpEntry>, t: ThreadDumpEntry)
    ensures Render(Joined(Entries(threads + [t])))
         == (Render(Joined(Entries(threads))) + (if threads == [] then [] else [COMMA])) + Render(EntryPieces(t))
  {
    assert Entries(threads + [t]) == Entries(threads) + [EntryPieces(t)];
    JoinedRender(Entries(threads), EntryPieces(t));
  }
}
