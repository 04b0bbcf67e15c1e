/**
 * `extractStringArray`: the scanner that reads the `args` list of a
 * `RunSuite` command. It finds `"name"`, skips to the next `[`, and then
 * runs a character-by-character state machine over `inString`, `escape`
 * and the string being built, until a `]` outside a string or the end of
 * the text.
 *
 * The scanner decodes only the escapes `\"`, `\\`, `\n`, `\r` and `\t`;
 * `jsonString` also writes `\b`, `\f` and `\u00XX`, which the scanner reads
 * back as the letter after the backslash. `AsWritten` is that scanner;
 * `Corrected` decodes every escape `jsonString` writes, the way
 * `extractStringField` does.
 */
module TestProtocolArray {
  import opened KotlinStd
  import opened TestProtocol

  datatype ArrayDecoding = AsWritten | Corrected

  /** The scanner's variables: the strings so far, the open string (null outside one), and the two flags. */
  datatype ArrayState = ArrayState(result: seq<JString>, current: Option<JString>, inString: bool, escape: bool)

  /** An open string exists exactly inside a string, and an escape is pending only inside one. */
  predicate Coherent(st: ArrayState) {
    st.inString == st.current.Some? && (st.escape ==> st.inString)
  }

  /** Between strings, with `strings` read so far. */
  function Outside(strings: seq<JString>): (st: ArrayState)
    ensures Coherent(st)
  {
    ArrayState(strings, None, false, false)
  }

  /** Inside a string whose text so far is `text`, no escape pending. */
  function Inside(strings: seq<JString>, text: JString): (st: ArrayState)
    ensures Coherent(st)
  {
    ArrayState(strings, Some(text), true, false)
  }

  /** What the scanner returns: the list, null, or the `parseInt` failure on `input`. */
  datatype Strings = Strings(items: seq<JString>) | NoStrings | StringsThrew(input: JString)

  /** The `switch` on the character after a backslash. */
  function ArrayUnescape(e: JChar, mode: ArrayDecoding): JChar {
    if mode == Corrected then Unescape(e)
    else if e == 0x6E then LF         // n
    else if e == 0x72 then CR         // r
    else if e == 0x74 then 0x09       // t
    else e                            // ", \ and anything else
  }

  datatype Step = Next(st: ArrayState) | Stop

  /** One pass of the scanning loop over the character `c`, branch by branch. */
  function ArrayStep(c: JChar, st: ArrayState, mode: ArrayDecoding): (r: Step)
    requires Coherent(st)
    ensures r.Next? ==> Coherent(r.st)
    ensures r.Stop? <==> !st.escape && c == RBRACKET && !st.inString
  {
    if st.escape then
      Next(Inside(st.result, st.current.value + [ArrayUnescape(c, mode)]))
    else if c == BACKSLASH && st.inString then
      Next(st.(escape := true))
    else if c == QUOTE then
      if st.inString then Next(Outside(st.result + [st.current.value]))
      else Next(Inside(st.result, []))
    else if c == RBRACKET && !st.inString then
      Stop
    else if st.inString then
      Next(Inside(st.result, st.current.value + [c]))
    else
      Next(st)
  }

  /**
   * The scanning loop over the text after `[`. In the corrected scanner a
   * `\u` reads four hexadecimal digits as `extractStringField` does: a
   * failed `parseInt` throws, and with fewer than four characters left the
   * `u` is dropped.
   */
  function RunArray(t: JString, st: ArrayState, mode: ArrayDecoding): (r: Strings)
    requires Coherent(st)
    ensures !r.NoStrings?
    ensures mode == AsWritten ==> r.Strings?
    decreases |t|
  {
    if t == [] then Strings(st.result)
    else if mode == Corrected && st.escape && t[0] == 0x75 then
      if |t| > 4 then
        match ParseHex(t[1..5])
        case None => StringsThrew(t[1..5])
        case Some(v) => RunArray(t[5..], Inside(st.result, st.current.value + [v % 0x1_0000]), mode)
      else RunArray(t[1..], Inside(st.result, st.current.value), mode)
    else
      match ArrayStep(t[0], st, mode)
      case Stop => Strings(st.result)
      case Next(st') => RunArray(t[1..], st', mode)
  }

  /** The loop that skips to the opening bracket. */
  function SkipToBracket(t: JString): (r: JString)
    ensures |r| <= |t|
    ensures r == [] || r[0] == LBRACKET
  {
    if t != [] && t[0] != LBRACKET then SkipToBracket(t[1..]) else t
  }

  /** The list after a key: null without a `[`, otherwise the scan from just past it. */
  function ArrayAfter(t: JString, mode: ArrayDecoding): Strings {
    var u := SkipToBracket(t);
    if u == [] then NoStrings else RunArray(u[1..], Outside([]), mode)
  }

  /** `extractStringArray(json, name)`. */
  function ArrayOf(json: JString, name: JString, mode: ArrayDecoding): Strings {
    var p := Quoted(name);
    var idx := IndexOfSeq(json, p);
    if idx < 0 then NoStrings else ArrayAfter(json[idx + |p|..], mode)
  }

  // ---------------------------------------------------------------------------
  // The scanner as written
  // ---------------------------------------------------------------------------

  method ExtractStringArray(json: JString, fieldName: JString) returns (r: Strings)
    ensures r == ArrayOf(json, fieldName, AsWritten)
  {
    var pattern := Quoted(fieldName);
    var idx := IndexOfSeq(json, pattern);
    if idx < 0 {
      return NoStrings;
    }
    idx := SkipToBracketLoop(json, idx + |pattern|);
    if idx >= |json| {
      return NoStrings;
    }
    r := ScanArray(json, idx + 1);
  }

  method SkipToBracketLoop(json: JString, start: nat) returns (idx: nat)
    requires start <= |json|
    ensures start <= idx <= |json|
    ensures json[idx..] == SkipToBracket(json[start..])
  {
    idx := start;
    while idx < |json| && json[idx] != LBRACKET
      invariant start <= idx <= |json|
      invariant SkipToBracket(json[start..]) == SkipToBracket(json[idx..])
    {
      assert json[idx..][1..] == json[idx + 1..];
      idx := idx + 1;
    }
  }

  /** The state machine, from the character after `[`. */
  method ScanArray(json: JString, start: nat) returns (r: Strings)
    requires start <= |json|
    ensures r == RunArray(json[start..], Outside([]), AsWritten)
  {
    var result: seq<JString> := [];
    var current: Option<JString> := None;
    var inString := false;
    var escape := false;
    var idx := start;
    while idx < |json|
      invariant start <= idx <= |json|
      invariant Coherent(ArrayState(result, current, inString, escape))
      invariant RunArray(json[start..], Outside([]), AsWritten)
             == RunArray(json[idx..], ArrayState(result, current, inString, escape), AsWritten)
    {
      var c := json[idx];
      ghost var st := ArrayState(result, current, inString, escape);
      RunArrayAt(json, idx, st, AsWritten);
      if escape {
        if current.Some? {
          var e := c;                     // quote, backslash and any other character stay as they are
          if c == 0x6E {
            e := LF;
          } else if c == 0x72 {
            e := CR;
          } else if c == 0x74 {
            e := 0x09;
          }
          current := Some(current.value + [e]);
        }
        escape := false;
      } else if c == BACKSLASH && inString {
        escape := true;
      } else if c == QUOTE {
        if inString {
          result := result + [current.value];
          current := None;
        } else {
          current := Some([]);
        }
        inString := !inString;
      } else if c == RBRACKET && !inString {
        break;
      } else if inString && current.Some? {
        current := Some(current.value + [c]);
      }
      assert ArrayStep(c, st, AsWritten) == Next(ArrayState(result, current, inString, escape));
      idx := idx + 1;
    }
    r := Strings(result);
  }

  /** One unfolding of the scan at `idx`, outside the corrected `\u` branch. */
  lemma RunArrayAt(json: JString, idx: nat, st: ArrayState, mode: ArrayDecoding)
    requires idx < |json| && Coherent(st)
    requires !(mode == Corrected && st.escape && json[idx] == 0x75)
    ensures ArrayStep(json[idx], st, mode).Stop? ==> RunArray(json[idx..], st, mode) == Strings(st.result)
    ensures ArrayStep(json[idx], st, mode).Next? ==>
              RunArray(json[idx..], st, mode) == RunArray(json[idx + 1..], ArrayStep(json[idx], st, mode).st, mode)
  {
    assert json[idx..][1..] == json[idx + 1..];
  }

  // ---------------------------------------------------------------------------
  // Reading back what `jsonString` writes
  // ---------------------------------------------------------------------------

  /** A code unit the scanner as written reads back unchanged: printable, or a line break or tab. */
  predicate Survives(c: JChar) {
    c >= 0x20 || c == LF || c == CR || c == 0x09
  }

  /**
   * What the scanner makes of the escape `jsonString` writes for `c`: the
   * corrected one gets `c` back; the one as written turns `\b` into `b`,
   * `\f` into `f` and `\u00XX` into the five letters `u00XX`.
   */
  function ReadChar(c: JChar, mode: ArrayDecoding): (r: JString)
    ensures r == [c] <==> mode == Corrected || Survives(c)
    ensures |r| >= 1
  {
    if mode == Corrected then [c]
    else if c == 0x08 then [0x62]
    else if c == 0x0C then [0x66]
    else if !Survives(c) then [0x75] + Hex4(c)
    else [c]
  }

  function ReadText(v: JString, mode: ArrayDecoding): JString {
    if v == [] then [] else ReadChar(v[0], mode) + ReadText(v[1..], mode)
  }

  /** The corrected scanner reads every written string back. */
  lemma {:induction false} ReadTextCorrected(v: JString)
    ensures ReadText(v, Corrected) == v
  {
    if v != [] {
      ReadTextCorrected(v[1..]);
      assert v == [v[0]] + v[1..];
    }
  }

  /** The scanner as written reads a string back exactly when all its code units survive. */
  lemma {:induction false} ReadTextAsWritten(v: JString)
    ensures ReadText(v, AsWritten) == v <==> forall i | 0 <= i < |v| :: Survives(v[i])
  {
    if v != [] {
      ReadTextAsWritten(v[1..]);
      ReadTextLength(v[1..]);
      var r := ReadChar(v[0], AsWritten);
      if forall i | 0 <= i < |v| :: Survives(v[i]) {
        assert forall i | 0 <= i < |v[1..]| :: Survives(v[1..][i]) by {
          forall i | 0 <= i < |v[1..]| ensures Survives(v[1..][i]) {
            assert v[1..][i] == v[i + 1];
          }
        }
        assert v == [v[0]] + v[1..];
      }
    }
  }

  lemma {:induction false} ReadTextLength(v: JString)
    ensures |ReadText(v, AsWritten)| >= |v|
  {
    if v != [] {
      ReadTextLength(v[1..]);
    }
  }

  /** Backspace, written `\b`, comes back as the letter `b`. */
  lemma BackspaceReadsAsB()
    ensures ReadText([0x08], AsWritten) == [0x62]
  {
    assert ReadText([0x08], AsWritten) == ReadChar(0x08, AsWritten) + ReadText([], AsWritten);
  }

  /** Text without quotes or backslashes is appended to the open string as it is. */
  lemma {:induction false} ArrayPlain(h: JString, rest: JString, strings: seq<JString>, text: JString, mode: ArrayDecoding)
    requires QUOTE !in h && BACKSLASH !in h
    ensures RunArray(h + rest, Inside(strings, text), mode) == RunArray(rest, Inside(strings, text + h), mode)
  {
    if h == [] {
      assert h + rest == rest && text + h == text;
    } else {
      var t := h + rest;
      assert t[0] == h[0] && h[0] in h;
      assert t[1..] == h[1..] + rest;
      assert QUOTE !in h[1..] && BACKSLASH !in h[1..] by {
        assert forall x | x in h[1..] :: x in h;
      }
      ArrayPlain(h[1..], rest, strings, text + [h[0]], mode);
      assert (text + [h[0]]) + h[1..] == text + h;
    }
  }

  /** A two-character escape other than a corrected `\u`. */
  lemma ArrayPair(e: JChar, rest: JString, strings: seq<JString>, text: JString, mode: ArrayDecoding)
    requires mode == AsWritten || e != 0x75
    ensures RunArray([BACKSLASH, e] + rest, Inside(strings, text), mode)
         == RunArray(rest, Inside(strings, text + [ArrayUnescape(e, mode)]), mode)
  {
    var t := [BACKSLASH, e] + rest;
    assert t[1..] == [e] + rest;
    assert t[1..][1..] == rest;
  }

  /** A `\uXXXX` escape in the corrected scanner. */
  lemma ArrayUnicode(e: JString, h: JString, c: JChar, rest: JString, strings: seq<JString>, text: JString)
    requires |h| == 4 && ParseHex(h) == Some(c as int) && e == [BACKSLASH, 0x75] + h
    ensures RunArray(e + rest, Inside(strings, text), Corrected) == RunArray(rest, Inside(strings, text + [c]), Corrected)
  {
    var t := e + rest;
    var u := t[1..];
    assert u == [0x75] + (h + rest);
    assert u[1..5] == h;
    assert u[5..] == rest;
  }

  /** One written code unit is read back as `ReadChar`. */
  lemma ArrayChar(c: JChar, rest: JString, strings: seq<JString>, text: JString, mode: ArrayDecoding)
    ensures RunArray(EscapeChar(c) + rest, Inside(strings, text), mode)
         == RunArray(rest, Inside(strings, text + ReadChar(c, mode)), mode)
  {
    if c == QUOTE || c == BACKSLASH || c == 0x08 || c == 0x0C || c == LF || c == CR || c == 0x09 {
      ArrayNamed(c, rest, strings, text, mode);
    } else if c < 0x20 {
      ArrayControl(c, rest, strings, text, mode);
    } else {
      assert EscapeChar(c) == [c];
      ArrayPlain([c], rest, strings, text, mode);
    }
  }

  lemma ArrayNamed(c: JChar, rest: JString, strings: seq<JString>, text: JString, mode: ArrayDecoding)
    requires c == QUOTE || c == BACKSLASH || c == 0x08 || c == 0x0C || c == LF || c == CR || c == 0x09
    ensures RunArray(EscapeChar(c) + rest, Inside(strings, text), mode)
         == RunArray(rest, Inside(strings, text + ReadChar(c, mode)), mode)
  {
    var e := EscapeChar(c)[1];
    assert EscapeChar(c) == [BACKSLASH, e];
    assert ReadChar(c, mode) == [ArrayUnescape(e, mode)];
    ArrayPair(e, rest, strings, text, mode);
  }

  lemma ArrayControl(c: JChar, rest: JString, strings: seq<JString>, text: JString, mode: ArrayDecoding)
    requires c < 0x20 && !(c == 0x08 || c == 0x0C || c == LF || c == CR || c == 0x09)
    ensures RunArray(EscapeChar(c) + rest, Inside(strings, text), mode)
         == RunArray(rest, Inside(strings, text + ReadChar(c, mode)), mode)
  {
    var h := Hex4(c);
    if mode == Corrected {
      ParseHex4(c);
      ArrayUnicode(EscapeChar(c), h, c, rest, strings, text);
    } else {
      AppendAssoc([BACKSLASH, 0x75], h, rest);
      ArrayPair(0x75, h + rest, strings, text, mode);
      Hex4Plain(c);
      ArrayPlain(h, rest, strings, text + [0x75], mode);
      AppendAssoc(text, [0x75], h);
    }
  }

  lemma Hex4Plain(c: JChar)
    ensures QUOTE !in Hex4(c) && BACKSLASH !in Hex4(c)
  {
    var h := Hex4(c);
    assert forall i | 0 <= i < 4 :: 0x30 <= h[i] <= 0x66 && h[i] != BACKSLASH;
  }

  /** The escaped body of a string is read back as `ReadText`. */
  lemma {:induction false} ArrayEscaped(v: JString, rest: JString, strings: seq<JString>, text: JString, mode: ArrayDecoding)
    ensures RunArray(Escaped(v) + rest, Inside(strings, text), mode)
         == RunArray(rest, Inside(strings, text + ReadText(v, mode)), mode)
  {
    if v == [] {
      assert Escaped(v) + rest == rest && text + ReadText(v, mode) == text;
    } else {
      var t1 := Escaped(v[1..]) + rest;
      var text1 := text + ReadChar(v[0], mode);
      EscapedCons(v, rest);
      ArrayChar(v[0], t1, strings, text, mode);
      ArrayEscaped(v[1..], rest, strings, text1, mode);
      ReadTextCons(v, text, mode);
    }
  }

  lemma EscapedCons(v: JString, rest: JString)
    requires v != []
    ensures Escaped(v) + rest == EscapeChar(v[0]) + (Escaped(v[1..]) + rest)
  {
  }

  lemma ReadTextCons(v: JString, text: JString, mode: ArrayDecoding)
    requires v != []
    ensures (text + ReadChar(v[0], mode)) + ReadText(v[1..], mode) == text + ReadText(v, mode)
  {
    var a, b := ReadChar(v[0], mode), ReadText(v[1..], mode);
    assert ReadText(v, mode) == a + b;
    assert (text + a) + b == text + (a + b);
  }

  /** A written string between strings adds `ReadText` of it to the list. */
  lemma ArrayString(v: JString, rest: JString, strings: seq<JString>, mode: ArrayDecoding)
    ensures RunArray(Quoted(Escaped(v)) + rest, Outside(strings), mode)
         == RunArray(rest, Outside(strings + [ReadText(v, mode)]), mode)
  {
    QuotedTail(Escaped(v), rest);
    ArrayEscaped(v, [QUOTE] + rest, strings, [], mode);
    assert [] + ReadText(v, mode) == ReadText(v, mode);
    assert ([QUOTE] + rest)[1..] == rest;
  }

  /** Text without quotes or `]` between strings is passed over. */
  lemma {:induction false} ArrayGap(g: JString, rest: JString, strings: seq<JString>, mode: ArrayDecoding)
    requires QUOTE !in g && RBRACKET !in g
    ensures RunArray(g + rest, Outside(strings), mode) == RunArray(rest, Outside(strings), mode)
  {
    if g == [] {
      assert g + rest == rest;
    } else {
      var t := g + rest;
      assert t[0] == g[0] && g[0] in g;
      assert t[1..] == g[1..] + rest;
      assert QUOTE !in g[1..] && RBRACKET !in g[1..] by {
        assert forall x | x in g[1..] :: x in g;
      }
      ArrayGap(g[1..], rest, strings, mode);
    }
  }

  /** What one list element adds: nothing for `null`, `ReadText` of a string. */
  function ReadArg(a: Option<JString>, mode: ArrayDecoding): seq<JString> {
    if a.None? then [] else [ReadText(a.value, mode)]
  }

  function ReadArgs(args: seq<Option<JString>>, mode: ArrayDecoding): seq<JString> {
    if args == [] then [] else ReadArg(args[0], mode) + ReadArgs(args[1..], mode)
  }

  /** The strings of a list, with its `null` elements dropped. */
  function NonNull(args: seq<Option<JString>>): seq<JString> {
    if args == [] then [] else (if args[0].None? then [] else [args[0].value]) + NonNull(args[1..])
  }

  /** With the escapes read back as written by `jsonString`, the list comes back without its nulls. */
  lemma {:induction false} ReadArgsCorrected(args: seq<Option<JString>>)
    ensures ReadArgs(args, Corrected) == NonNull(args)
  {
    if args != [] {
      if args[0].Some? {
        ReadTextCorrected(args[0].value);
      }
      ReadArgsCorrected(args[1..]);
    }
  }

  /** As written, the same holds when every character of every element survives the scanner. */
  lemma {:induction false} ReadArgsAsWritten(args: seq<Option<JString>>)
    requires forall i, j | 0 <= i < |args| && args[i].Some? && 0 <= j < |args[i].value| :: Survives(args[i].value[j])
    ensures ReadArgs(args, AsWritten) == NonNull(args)
  {
    if args != [] {
      if args[0].Some? {
        ReadTextAsWritten(args[0].value);
      }
      assert forall i, j | 0 <= i < |args[1..]| && args[1..][i].Some? && 0 <= j < |args[1..][i].value| :: Survives(args[1..][i].value[j]) by {
        forall i, j | 0 <= i < |args[1..]| && args[1..][i].Some? && 0 <= j < |args[1..][i].value|
          ensures Survives(args[1..][i].value[j])
        {
          assert args[1..][i] == args[i + 1];
        }
      }
      ReadArgsAsWritten(args[1..]);
    }
  }

  lemma ArrayValue(a: Option<JString>, rest: JString, strings: seq<JString>, mode: ArrayDecoding)
    ensures RunArray(JsonText(a) + rest, Outside(strings), mode) == RunArray(rest, Outside(strings + ReadArg(a, mode)), mode)
  {
    if a.None? {
      var n := J("null");
      assert n == [0x6E, 0x75, 0x6C, 0x6C];
      ArrayGap(n, rest, strings, mode);
      assert strings + [] == strings;
    } else {
      ArrayString(a.value, rest, strings, mode);
    }
  }

  /** The `]` that ends the list. */
  lemma ArrayEnd(rest: JString, strings: seq<JString>, mode: ArrayDecoding)
    ensures RunArray([RBRACKET] + rest, Outside(strings), mode) == Strings(strings)
  {
    assert ([RBRACKET] + rest)[0] == RBRACKET;
  }

  /** The comma-separated list `encodeRunSuite` writes, up to its `]`, is read as `ReadArgs`. */
  lemma {:induction false} ArrayItems(args: seq<Option<JString>>, rest: JString, strings: seq<JString>, mode: ArrayDecoding)
    ensures RunArray(Render(StringList(args)) + ([RBRACKET] + rest), Outside(strings), mode)
         == Strings(strings + ReadArgs(args, mode))
  {
    var tail := [RBRACKET] + rest;
    if args == [] {
      assert Render(StringList(args)) + tail == tail;
      ArrayEnd(rest, strings, mode);
      assert strings + ReadArgs(args, mode) == strings;
    } else if |args| == 1 {
      assert args == [args[0]];
      StringListOne(args[0]);
      ArrayValue(args[0], tail, strings, mode);
      ArrayEnd(rest, strings + ReadArg(args[0], mode), mode);
      assert ReadArgs(args, mode) == ReadArg(args[0], mode) + ReadArgs([], mode);
    } else {
      var s1 := strings + ReadArg(args[0], mode);
      ArrayItemsHead(args, rest, strings, mode);
      ArrayItems(args[1..], rest, s1, mode);
      ReadArgsCons(args, strings, mode);
    }
  }

  /** The first element and its comma, for a list of two or more. */
  lemma ArrayItemsHead(args: seq<Option<JString>>, rest: JString, strings: seq<JString>, mode: ArrayDecoding)
    requires |args| > 1
    ensures RunArray(Render(StringList(args)) + ([RBRACKET] + rest), Outside(strings), mode)
         == RunArray(Render(StringList(args[1..])) + ([RBRACKET] + rest), Outside(strings + ReadArg(args[0], mode)), mode)
  {
    var tail := Render(StringList(args[1..])) + ([RBRACKET] + rest);
    StringListCons(args);
    ConcatRight(JsonText(args[0]), [COMMA], Render(StringList(args[1..])), [RBRACKET] + rest);
    ArrayValue(args[0], [COMMA] + tail, strings, mode);
    ArrayGap([COMMA], tail, strings + ReadArg(args[0], mode), mode);
  }

  lemma ConcatRight(a: JString, b: JString, c: JString, d: JString)
    ensures (a + (b + c)) + d == a + (b + (c + d))
  {
  }

  lemma ReadArgsCons(args: seq<Option<JString>>, strings: seq<JString>, mode: ArrayDecoding)
    requires args != []
    ensures (strings + ReadArg(args[0], mode)) + ReadArgs(args[1..], mode) == strings + ReadArgs(args, mode)
  {
    var a, b := ReadArg(args[0], mode), ReadArgs(args[1..], mode);
    assert ReadArgs(args, mode) == a + b;
    assert (strings + a) + b == strings + (a + b);
  }

  /** After the key: `:[`, the list, and its closing punctuation. */
  lemma ArrayAfterList(args: seq<Option<JString>>, close: JString, mode: ArrayDecoding)
    requires close != [] && close[0] == RBRACKET
    ensures ArrayAfter([COLON, LBRACKET] + Render(StringList(args) + [Gap(close)]), mode) == Strings(ReadArgs(args, mode))
  {
    RenderClose(StringList(args), close);
    assert close == [RBRACKET] + close[1..];
    ArrayAfterBracket(Render(StringList(args)) + close, mode);
    ArrayItems(args, close[1..], [], mode);
    assert [] + ReadArgs(args, mode) == ReadArgs(args, mode);
  }

  lemma RenderClose(ps: seq<Piece>, close: JString)
    ensures Render(ps + [Gap(close)]) == Render(ps) + close
  {
    RenderAppend(ps, [Gap(close)]);
    assert Render([Gap(close)]) == close + Render([]);
  }

  lemma ArrayAfterBracket(u: JString, mode: ArrayDecoding)
    ensures ArrayAfter([COLON, LBRACKET] + u, mode) == RunArray(u, Outside([]), mode)
  {
    var t := [COLON, LBRACKET] + u;
    assert t[1..] == [LBRACKET] + u;
    assert SkipToBracket(t) == [LBRACKET] + u;
    assert ([LBRACKET] + u)[1..] == u;
  }

  /** Where `"name"` is first found at `n`, the list is read from the end of the match. */
  lemma ArrayOfFound(json: JString, name: JString, n: nat, mode: ArrayDecoding)
    requires IndexOfSeq(json, Quoted(name)) == n
    ensures ArrayOf(json, name, mode) == ArrayAfter(json[n + |name| + 2..], mode)
  {
  }

  /** `"k"` is found only after passable pieces. */
  lemma ArrayOfPass(ps: seq<Piece>, k: JString, rest: JString, mode: ArrayDecoding)
    requires |k| > 0 && QUOTE !in k && Passable(ps, k)
    ensures ArrayOf(Render(ps) + rest, k, mode) == ArrayOf(rest, k, mode)
  {
    PassIndex(ps, k, rest);
    var i := IndexOfSeq(rest, Quoted(k));
    if i >= 0 {
      ArrayOfShifted(Render(ps), rest, k, i, mode);
    }
  }

  lemma ArrayOfShifted(before: JString, rest: JString, k: JString, i: nat, mode: ArrayDecoding)
    requires IndexOfSeq(rest, Quoted(k)) == i && IndexOfSeq(before + rest, Quoted(k)) == |before| + i
    ensures ArrayOf(before + rest, k, mode) == ArrayOf(rest, k, mode)
  {
    ArrayOfFound(before + rest, k, |before| + i, mode);
    ArrayOfFound(rest, k, i, mode);
    assert (before + rest)[|before| + i + |k| + 2..] == rest[i + |k| + 2..];
  }

  lemma ArrayOfPassPieces(a: seq<Piece>, b: seq<Piece>, k: JString, mode: ArrayDecoding)
    requires |k| > 0 && QUOTE !in k && Passable(a, k)
    ensures ArrayOf(Render(a + b), k, mode) == ArrayOf(Render(b), k, mode)
  {
    RenderAppend(a, b);
    ArrayOfPass(a, k, Render(b), mode);
  }

  /** The list of `k` where the text starts with `"k"`. */
  lemma ArrayOfKey(k: JString, sep: JString, ps: seq<Piece>, mode: ArrayDecoding)
    ensures ArrayOf(Render(Tok(k, sep) + ps), k, mode) == ArrayAfter(sep + Render(ps), mode)
  {
    var after := sep + Render(ps);
    RenderPair(Str(k), sep, ps);
    IndexFound(k, after);
    ArrayOfFound(Quoted(k) + after, k, 0, mode);
    assert (Quoted(k) + after)[|k| + 2..] == after;
  }
}
