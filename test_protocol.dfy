/**
 * The line protocol between bleep and a forked test JVM: one JSON object
 * per line. The forked JVM writes responses (`encode*`) and reads commands
 * with a small hand-written scanner (`parseCommand`); bleep writes the
 * commands with `encodeRunSuite` and `encodeShutdown`.
 *
 * Java strings are sequences of UTF-16 code units, so a `\uXXXX` escape can
 * produce any code unit, a lone surrogate included. The fixed texts of the
 * encoders are written as pieces, punctuation between quoted strings:
 * `{"type":"Log",` is `[Gap([LBRACE])] + Tok(J("type"), [COLON]) + Tok(J("Log"), [COMMA])`.
 */
module TestProtocol {
  import opened KotlinStd

  // ---------------------------------------------------------------------------
  // Java text
  // ---------------------------------------------------------------------------

  /** A UTF-16 code unit (Java `char`). */
  type JChar = c: int | 0 <= c < 0x1_0000

  /** A Java `String`. */
  type JString = seq<JChar>

  /**
   * A Java string literal. Every literal used here is ASCII, one code unit
   * per character; U+FFFD stands in for characters outside the BMP.
   */
  function J(s: string): (r: JString)
    ensures |r| == |s|
    ensures forall i | 0 <= i < |s| :: r[i] == s[i] as int || r[i] == 0xFFFD
    ensures forall i | 0 <= i < |s| && (s[i] as int) < 0x1_0000 :: r[i] == s[i] as int
  {
    seq(|s|, i requires 0 <= i < |s| => if (s[i] as int) < 0x1_0000 then s[i] as int else 0xFFFD)
  }

  const QUOTE: JChar := 0x22
  const BACKSLASH: JChar := 0x5C
  const COLON: JChar := 0x3A
  const COMMA: JChar := 0x2C
  const SPACE: JChar := 0x20
  const LBRACKET: JChar := 0x5B
  const RBRACKET: JChar := 0x5D
  const LBRACE: JChar := 0x7B
  const RBRACE: JChar := 0x7D
  const LF: JChar := 0x0A
  const CR: JChar := 0x0D

  /** `"` + body + `"`. */
  function Quoted(body: JString): (r: JString)
    ensures |r| == |body| + 2 && r[0] == QUOTE && r[|r| - 1] == QUOTE
  {
    [QUOTE] + body + [QUOTE]
  }

  /** `Long.toString`, and the decimal text string concatenation gives an `int`. */
  function DecimalText(n: int): (r: JString)
    ensures |r| > 0
    ensures forall i | 0 <= i < |r| :: r[i] == 0x2D || 0x30 <= r[i] <= 0x39
  {
    if n < 0 then [0x2D] + Digits(-n) else Digits(n)
  }

  function Digits(n: nat): (r: JString)
    ensures |r| > 0
    ensures forall i | 0 <= i < |r| :: 0x30 <= r[i] <= 0x39
  {
    if n < 10 then [0x30 + n] else Digits(n / 10) + [0x30 + n % 10]
  }

  // ---------------------------------------------------------------------------
  // jsonString
  // ---------------------------------------------------------------------------

  /** A lowercase hexadecimal digit. */
  function HexDigit(d: int): (r: JChar)
    requires 0 <= d < 16
  {
    if d < 10 then 0x30 + d else 0x61 + (d - 10)
  }

  /** `String.format("%04x", c)`. */
  function Hex4(c: JChar): (r: JString)
    ensures |r| == 4
  {
    var q := c / 16;
    var q' := q / 16;
    [HexDigit(q' / 16), HexDigit(q' % 16), HexDigit(q % 16), HexDigit(c % 16)]
  }

  /** How `jsonString` writes one code unit (the `switch` of its loop). */
  function EscapeChar(c: JChar): (r: JString)
    ensures |r| > 0
  {
    if c == QUOTE then [BACKSLASH, QUOTE]
    else if c == BACKSLASH then [BACKSLASH, BACKSLASH]
    else if c == 0x08 then [BACKSLASH, 0x62]        // \b
    else if c == 0x0C then [BACKSLASH, 0x66]        // \f
    else if c == LF then [BACKSLASH, 0x6E]          // \n
    else if c == CR then [BACKSLASH, 0x72]          // \r
    else if c == 0x09 then [BACKSLASH, 0x74]        // \t
    else if c < 0x20 then [BACKSLASH, 0x75] + Hex4(c)   // \u and four hex digits
    else [c]
  }

  /** The escaped body of a JSON string. */
  function Escaped(s: JString): JString {
    if s == [] then [] else EscapeChar(s[0]) + Escaped(s[1..])
  }

  /** What `jsonString` returns: `null`, or the escaped text between quotes. */
  function JsonText(s: Option<JString>): JString {
    if s.None? then J("null") else Quoted(Escaped(s.value))
  }

  /** `jsonString`. */
  method JsonString(s: Option<JString>) returns (r: JString)
    ensures r == JsonText(s)
  {
    if s.None? {
      return J("null");
    }
    var text := s.value;
    var sb := [QUOTE];
    for i := 0 to |text|
      invariant sb == [QUOTE] + Escaped(text[..i])
    {
      var c := text[i];
      EscapedSnoc(text[..i], c);
      assert text[..i + 1] == text[..i] + [c];
      AppendAssoc([QUOTE], Escaped(text[..i]), EscapeChar(c));
      sb := sb + EscapeChar(c);
    }
    assert text[..|text|] == text;
    r := sb + [QUOTE];
  }

  lemma AppendAssoc(a: JString, b: JString, c: JString)
    ensures (a + b) + c == a + (b + c)
  {
  }

  lemma EscapedSnoc(s: JString, c: JChar)
    ensures Escaped(s + [c]) == Escaped(s) + EscapeChar(c)
  {
    EscapedAppend(s, [c]);
    assert Escaped([c]) == EscapeChar(c) + Escaped([]);
  }

  lemma {:induction false} EscapedAppend(a: JString, b: JString)
    ensures Escaped(a + b) == Escaped(a) + Escaped(b)
  {
    if a == [] {
      assert a + b == b;
    } else {
      assert (a + b)[1..] == a[1..] + b;
      EscapedAppend(a[1..], b);
    }
  }

  /** No quote, no backslash, no control character: text `jsonString` copies as it is. */
  predicate Plain(s: JString) {
    forall i | 0 <= i < |s| :: s[i] >= 0x20 && s[i] != QUOTE && s[i] != BACKSLASH
  }

  /** Plain text is copied unchanged, and only plain text is. */
  lemma {:induction false} EscapedPlain(s: JString)
    ensures Escaped(s) == s <==> Plain(s)
  {
    if s != [] {
      EscapedPlain(s[1..]);
      var e := EscapeChar(s[0]);
      if Plain(s) {
        assert Plain(s[1..]) by {
          forall i | 0 <= i < |s[1..]| ensures s[1..][i] >= 0x20 && s[1..][i] != QUOTE && s[1..][i] != BACKSLASH {
            assert s[1..][i] == s[i + 1];
          }
        }
        assert s == [s[0]] + s[1..];
      }
      if Escaped(s) == s {
        EscapedLength(s[1..]);
        if |e| == 1 {
          assert e == [s[0]];
          assert Escaped(s[1..]) == s[1..];
          forall i | 0 <= i < |s| ensures s[i] >= 0x20 && s[i] != QUOTE && s[i] != BACKSLASH {
            if i > 0 {
              assert s[i] == s[1..][i - 1];
            }
          }
        }
      }
    }
  }

  lemma {:induction false} EscapedLength(s: JString)
    ensures |Escaped(s)| >= |s|
  {
    if s != [] {
      EscapedLength(s[1..]);
    }
  }

  /** A quote in escaped text comes only from a quote of the original. */
  lemma {:induction false} EscapedQuoteFree(s: JString)
    requires QUOTE !in s
    ensures QUOTE !in Escaped(s)
  {
    if s != [] {
      assert s == [s[0]] + s[1..];
      EscapedQuoteFree(s[1..]);
    }
  }

  /** Escaped text holds no control character, so no line break. */
  lemma {:induction false} EscapedPrintable(s: JString)
    ensures forall c | c in Escaped(s) :: c >= 0x20
  {
    if s != [] {
      EscapedPrintable(s[1..]);
      var e := EscapeChar(s[0]);
      assert forall i | 0 <= i < |e| :: e[i] >= 0x20;
    }
  }

  /** No line break: the text fits on one line of the protocol. */
  predicate OneLine(s: JString) {
    LF !in s && CR !in s
  }

  lemma JsonTextOneLine(v: Option<JString>)
    ensures OneLine(JsonText(v))
  {
    if v.Some? {
      EscapedPrintable(v.value);
    }
  }

  lemma LiteralOneLine(s: string)
    requires '\n' !in s && '\r' !in s
    ensures OneLine(J(s))
  {
  }

  // ---------------------------------------------------------------------------
  // Message texts
  // ---------------------------------------------------------------------------

  /**
   * A message is written as a sequence of pieces: punctuation, numbers and
   * `null` between the strings (a gap, which holds no quote), and strings
   * (keys and values) between quotes.
   */
  datatype Piece = Gap(text: JString) | Str(body: JString)

  function PieceText(p: Piece): JString {
    match p
    case Gap(t) => t
    case Str(b) => Quoted(b)
  }

  /** The text of a sequence of pieces. */
  function Render(ps: seq<Piece>): JString {
    if ps == [] then [] else PieceText(ps[0]) + Render(ps[1..])
  }

  lemma {:induction false} RenderAppend(a: seq<Piece>, b: seq<Piece>)
    ensures Render(a + b) == Render(a) + Render(b)
  {
    if a == [] {
      assert a + b == b;
    } else {
      assert (a + b)[1..] == a[1..] + b;
      RenderAppend(a[1..], b);
    }
  }

  /** `jsonString` as a piece: `null` is a gap, any other string a quoted string. */
  function JsonPiece(v: Option<JString>): (p: Piece)
    ensures PieceText(p) == JsonText(v)
  {
    if v.None? then Gap(J("null")) else Str(Escaped(v.value))
  }

  /** A string and the punctuation after it: a key and its colon, or a fixed value and its comma. */
  function Tok(s: JString, sep: JString): seq<Piece> {
    [Str(s), Gap(sep)]
  }

  /** `jsonString(v)` and the punctuation after it. */
  function Val(v: Option<JString>, sep: JString): seq<Piece> {
    [JsonPiece(v), Gap(sep)]
  }

  /** A number and the punctuation after it. */
  function Num(n: int, sep: JString): seq<Piece> {
    [Gap(DecimalText(n) + sep)]
  }

  lemma RenderPair(p: Piece, sep: JString, ps: seq<Piece>)
    ensures Render([p, Gap(sep)] + ps) == PieceText(p) + (sep + Render(ps))
  {
    var qs := [p, Gap(sep)] + ps;
    assert qs[1..] == [Gap(sep)] + ps;
    assert qs[1..][1..] == ps;
  }

  /** Lists of pieces separated by commas, as the encoders' loops write them. */
  function Joined(xs: seq<seq<Piece>>): seq<Piece> {
    if xs == [] then []
    else if |xs| == 1 then xs[0]
    else xs[0] + [Gap([COMMA])] + Joined(xs[1..])
  }

  lemma {:induction false} JoinedSnoc(xs: seq<seq<Piece>>, x: seq<Piece>)
    ensures Joined(xs + [x]) == Joined(xs) + (if xs == [] then [] else [Gap([COMMA])]) + x
  {
    if |xs| == 1 {
      assert (xs + [x])[1..] == [x];
    } else if |xs| > 1 {
      assert (xs + [x])[1..] == xs[1..] + [x];
      JoinedSnoc(xs[1..], x);
    }
  }

  /** A list of strings written by `jsonString`, separated by commas. */
  function StringList(vs: seq<Option<JString>>): seq<Piece> {
    if vs == [] then []
    else if |vs| == 1 then [JsonPiece(vs[0])]
    else [JsonPiece(vs[0]), Gap([COMMA])] + StringList(vs[1..])
  }

  lemma StringListCons(vs: seq<Option<JString>>)
    requires |vs| > 1
    ensures Render(StringList(vs)) == JsonText(vs[0]) + ([COMMA] + Render(StringList(vs[1..])))
  {
    var ps := StringList(vs);
    assert ps[1..] == [Gap([COMMA])] + StringList(vs[1..]);
    assert ps[1..][1..] == StringList(vs[1..]);
  }

  lemma StringListOne(v: Option<JString>)
    ensures Render(StringList([v])) == JsonText(v)
  {
    assert Render([JsonPiece(v)]) == JsonText(v) + Render([]);
  }

  /** Appending an element writes a comma (unless the list was empty) and the element. */
  lemma {:induction false} StringListSnoc(vs: seq<Option<JString>>, v: Option<JString>)
    ensures StringList(vs + [v]) == StringList(vs) + (if vs == [] then [] else [Gap([COMMA])]) + [JsonPiece(v)]
  {
    if |vs| == 1 {
      assert (vs + [v])[1..] == [v];
    } else if |vs| > 1 {
      assert (vs + [v])[1..] == vs[1..] + [v];
      StringListSnoc(vs[1..], v);
    }
  }

  // ---------------------------------------------------------------------------
  // Searching: `String.indexOf`
  // ---------------------------------------------------------------------------

  /** An index found at offset `n` of a text is found at `n + off` of the text behind `off` characters. */
  function Shift(n: int, r: int): int {
    if r < 0 then -1 else n + r
  }

  /** `s` starts with `p`, compared one character at a time as `indexOf` does. */
  predicate IsPrefix(p: JString, s: JString)
    decreases |p|
  {
    p == [] || (s != [] && s[0] == p[0] && IsPrefix(p[1..], s[1..]))
  }

  lemma {:induction false} IsPrefixMeans(p: JString, s: JString)
    ensures IsPrefix(p, s) <==> |p| <= |s| && s[..|p|] == p
    decreases |p|
  {
    if p != [] && s != [] {
      IsPrefixMeans(p[1..], s[1..]);
      if |p| <= |s| {
        assert s[..|p|] == [s[0]] + s[1..][..|p| - 1];
        assert p == [p[0]] + p[1..];
      }
    }
  }

  /** `String.indexOf(String)`: where the first occurrence of `p` in `s` starts, or -1. */
  function IndexOfSeq(s: JString, p: JString): (r: int)
    ensures -1 <= r <= |s| - |p| || r == -1
    decreases |s|
  {
    if |s| < |p| then -1
    else if IsPrefix(p, s) then 0
    else
      Shift(1, IndexOfSeq(s[1..], p))
  }

  /** A found index is where the pattern occurs. */
  lemma {:induction false} IndexOfSeqMatch(s: JString, p: JString)
    ensures IndexOfSeq(s, p) >= 0 ==> s[IndexOfSeq(s, p)..IndexOfSeq(s, p) + |p|] == p
    decreases |s|
  {
    IsPrefixMeans(p, s);
    if |s| >= |p| && s[..|p|] != p {
      IndexOfSeqMatch(s[1..], p);
      var r := IndexOfSeq(s[1..], p);
      assert r >= 0 ==> s[1..][r..r + |p|] == s[r + 1..r + 1 + |p|];
    }
  }

  /** `indexOf` finds an occurrence whenever there is one, and none after the first. */
  lemma {:induction false} IndexOfSeqFirst(s: JString, p: JString, i: nat)
    requires i + |p| <= |s| && s[i..i + |p|] == p
    ensures 0 <= IndexOfSeq(s, p) <= i
    decreases i
  {
    IsPrefixMeans(p, s);
    if s[..|p|] != p {
      assert i > 0;
      assert s[1..][i - 1..i - 1 + |p|] == s[i..i + |p|];
      IndexOfSeqFirst(s[1..], p, i - 1);
    }
  }

  /** No occurrence of a quoted pattern starts inside text without quotes. */
  lemma {:induction false} IndexGap(g: JString, rest: JString, p: JString)
    requires |p| > 0 && p[0] == QUOTE && QUOTE !in g
    ensures IndexOfSeq(g + rest, p) == Shift(|g|, IndexOfSeq(rest, p))
  {
    if g == [] {
      assert g + rest == rest;
    } else if |g + rest| >= |p| {
      assert (g + rest)[0] == g[0];
      assert g[0] in g;
      assert (g + rest)[1..] == g[1..] + rest;
      assert QUOTE !in g[1..] by {
        assert forall x | x in g[1..] :: x in g;
      }
      IndexGap(g[1..], rest, p);
    }
  }

  /** An occurrence at the very start is the first. */
  lemma IndexFound(k: JString, rest: JString)
    ensures IndexOfSeq(Quoted(k) + rest, Quoted(k)) == 0
  {
    var s := Quoted(k) + rest;
    assert s[..|Quoted(k)|] == Quoted(k);
    IsPrefixMeans(Quoted(k), s);
  }

  /** Without an occurrence at the start, the search goes on one character later. */
  lemma IndexStep(s: JString, p: JString)
    requires |s| > 0 && (|s| >= |p| ==> s[..|p|] != p)
    ensures IndexOfSeq(s, p) == Shift(1, IndexOfSeq(s[1..], p))
  {
    IsPrefixMeans(p, s);
  }

  /** `p` occurs in `s` at `i`. */
  predicate OccursAt(s: JString, p: JString, i: nat) {
    i + |p| <= |s| && s[i..i + |p|] == p
  }

  /** Where no occurrence starts before `m`, the search goes on from `m`. */
  lemma {:induction false} IndexPast(s: JString, p: JString, m: nat)
    requires m <= |s|
    requires forall i: nat | i < m :: !OccursAt(s, p, i)
    ensures IndexOfSeq(s, p) == Shift(m, IndexOfSeq(s[m..], p))
    decreases m
  {
    if m == 0 {
      assert s[0..] == s;
    } else {
      assert !OccursAt(s, p, 0);
      IndexStep(s, p);
      forall i: nat | i < m - 1
        ensures !OccursAt(s[1..], p, i)
      {
        assert !OccursAt(s, p, i + 1);
        if i + |p| <= |s[1..]| {
          assert s[1..][i..i + |p|] == s[i + 1..i + 1 + |p|];
        }
      }
      IndexPast(s[1..], p, m - 1);
      assert s[1..][m - 1..] == s[m..];
    }
  }

  /** A string written without quotes inside holds `"k"` only if it is `"k"`. */
  lemma QuoteFreeSkipped(b: JString, k: JString)
    requires |k| > 0 && QUOTE !in b && QUOTE !in k && b != k
    ensures IndexOfSeq(Quoted(b), Quoted(k)) < 0
  {
    var q, p := Quoted(b), Quoted(k);
    forall i: nat | i < |q|
      ensures !OccursAt(q, p, i)
    {
      if i + |p| <= |q| {
        var w := q[i..i + |p|];
        if i > 0 {
          assert w[0] == b[i - 1] && b[i - 1] in b;
        } else if |k| < |b| {
          assert w[|k| + 1] == b[|k|] && b[|k|] in b;
        } else {
          assert exists j :: 0 <= j < |b| && b[j] != k[j];
          var j :| 0 <= j < |b| && b[j] != k[j];
          assert w[j + 1] == b[j] && p[j + 1] == k[j];
        }
      }
    }
    IndexPast(q, p, |q|);
    assert q[|q|..] == [];
  }

  /** No occurrence of `"k"` reaches past the closing quote of `"b"`, as `k` holds no quote. */
  lemma NoOccurrenceAcross(q: JString, rest: JString, k: JString, i: nat)
    requires |q| > 0 && q[|q| - 1] == QUOTE && |k| > 0 && QUOTE !in k
    requires |rest| > 0 && rest[0] != k[0]
    requires i < |q| < i + |k| + 2
    ensures !OccursAt(q + rest, Quoted(k), i)
  {
    var s, p := q + rest, Quoted(k);
    if i + |p| <= |s| {
      var w, o := s[i..i + |p|], |q| - 1 - i;
      if o == 0 {
        assert w[1] == rest[0] && p[1] == k[0];
      } else {
        assert w[o] == QUOTE && p[o] == k[o - 1] && k[o - 1] in k;
      }
    }
  }

  /**
   * The search moves past `"b"` when the written string holds no `"k"` and
   * what follows it does not start with the first character of `k`: an
   * occurrence reaching past the closing quote would need a quote inside `k`.
   */
  lemma IndexString(b: JString, rest: JString, k: JString)
    requires |k| > 0 && QUOTE !in k && IndexOfSeq(Quoted(b), Quoted(k)) < 0
    requires |rest| > 0 && rest[0] != k[0]
    ensures IndexOfSeq(Quoted(b) + rest, Quoted(k)) == Shift(|b| + 2, IndexOfSeq(rest, Quoted(k)))
  {
    var q := Quoted(b);
    forall i: nat | i < |q|
      ensures !OccursAt(q + rest, Quoted(k), i)
    {
      NoOccurrenceIn(b, rest, k, i);
    }
    IndexPast(q + rest, Quoted(k), |q|);
    assert (q + rest)[|q|..] == rest;
  }

  lemma NoOccurrenceIn(b: JString, rest: JString, k: JString, i: nat)
    requires |k| > 0 && QUOTE !in k && IndexOfSeq(Quoted(b), Quoted(k)) < 0
    requires |rest| > 0 && rest[0] != k[0]
    requires i < |Quoted(b)|
    ensures !OccursAt(Quoted(b) + rest, Quoted(k), i)
  {
    var q, p := Quoted(b), Quoted(k);
    if i + |p| <= |q| {
      assert (q + rest)[i..i + |p|] == q[i..i + |p|];
      if q[i..i + |p|] == p {
        IndexOfSeqFirst(q, p, i);
      }
    } else {
      NoOccurrenceAcross(q, rest, k, i);
    }
  }

  /**
   * Pieces that the search for `"k"` moves past: gaps, and strings whose
   * written form holds no `"k"`, each followed by a gap that does not start
   * with the first character of `k`.
   */
  predicate Passable(ps: seq<Piece>, k: JString)
    decreases |ps|
  {
    ps == [] ||
    ((match ps[0]
      case Gap(t) => QUOTE !in t
      case Str(b) =>
        IndexOfSeq(Quoted(b), Quoted(k)) < 0 && |ps| > 1 && ps[1].Gap? && ps[1].text != []
        && (k == [] || ps[1].text[0] != k[0]))
     && Passable(ps[1..], k))
  }

  /** The search for `"k"` moves past passable pieces. */
  lemma {:induction false} PassIndex(ps: seq<Piece>, k: JString, rest: JString)
    requires |k| > 0 && QUOTE !in k && Passable(ps, k)
    ensures IndexOfSeq(Render(ps) + rest, Quoted(k)) == Shift(|Render(ps)|, IndexOfSeq(rest, Quoted(k)))
    decreases |ps|
  {
    if ps == [] {
      assert Render(ps) + rest == rest;
    } else {
      var tail := Render(ps[1..]) + rest;
      AppendAssoc(PieceText(ps[0]), Render(ps[1..]), rest);
      PassIndex(ps[1..], k, rest);
      match ps[0]
      case Gap(t) =>
        IndexGap(t, tail, Quoted(k));
      case Str(b) =>
        assert Render(ps[1..]) == ps[1].text + Render(ps[2..]) by {
          assert ps[1..][1..] == ps[2..];
        }
        IndexString(b, tail, k);
    }
  }

  /** `"k"` is found only after passable pieces. */
  lemma FieldOfPass(ps: seq<Piece>, k: JString, rest: JString)
    requires |k| > 0 && QUOTE !in k && Passable(ps, k)
    ensures FieldOf(Render(ps) + rest, k) == FieldOf(rest, k)
  {
    PassIndex(ps, k, rest);
    var i := IndexOfSeq(rest, Quoted(k));
    if i >= 0 {
      FieldOfShifted(Render(ps), rest, k, i);
    }
  }

  lemma FieldOfShifted(before: JString, rest: JString, k: JString, i: nat)
    requires IndexOfSeq(rest, Quoted(k)) == i && IndexOfSeq(before + rest, Quoted(k)) == |before| + i
    ensures FieldOf(before + rest, k) == FieldOf(rest, k)
  {
    FieldOfFound(before + rest, k, |before| + i);
    FieldOfFound(rest, k, i);
    assert (before + rest)[|before| + i + |k| + 2..] == rest[i + |k| + 2..];
  }

  /** The pieces `a`, then the pieces `b`. */
  lemma FieldOfPassPieces(a: seq<Piece>, b: seq<Piece>, k: JString)
    requires |k| > 0 && QUOTE !in k && Passable(a, k)
    ensures FieldOf(Render(a + b), k) == FieldOf(Render(b), k)
  {
    RenderAppend(a, b);
    FieldOfPass(a, k, Render(b));
  }

  /** The value of `k` where the text starts with `"k"`. */
  lemma FieldOfKey(k: JString, sep: JString, ps: seq<Piece>)
    ensures FieldOf(Render(Tok(k, sep) + ps), k) == ValueAt(sep + Render(ps))
  {
    var after := sep + Render(ps);
    RenderPair(Str(k), sep, ps);
    IndexFound(k, after);
    FieldOfFound(Quoted(k) + after, k, 0);
    assert (Quoted(k) + after)[|k| + 2..] == after;
  }

  // ---------------------------------------------------------------------------
  // extractStringField
  // ---------------------------------------------------------------------------

  /**
   * What the field scanner returns: a value, null, or the
   * `NumberFormatException` that `parseInt` threw on the text `input`.
   */
  datatype Extracted = Found(value: JString) | Absent | Threw(input: JString)

  /** Text that was already decoded, before what the rest of the scan yields. */
  function Prepend(v: JString, r: Extracted): Extracted {
    if r.Found? then Found(v + r.value) else r
  }

  /**
   * `Character.isDigit` and the digit's value, in the Basic Multilingual
   * Plane as of Unicode 13: the decimal digits (general category Nd) come in
   * runs of ten consecutive code points, zero first.
   */
  function DecimalDigit(c: int): (r: Option<int>)
    ensures r.Some? ==> 0 <= r.value < 10
  {
    if 0x0030 <= c <= 0x0039 then Some(c - 0x0030)
    else if 0x0660 <= c <= 0x0669 then Some(c - 0x0660)
    else if 0x06F0 <= c <= 0x06F9 then Some(c - 0x06F0)
    else if 0x07C0 <= c <= 0x07C9 then Some(c - 0x07C0)
    else if 0x0966 <= c <= 0x096F then Some(c - 0x0966)
    else if 0x09E6 <= c <= 0x09EF then Some(c - 0x09E6)
    else if 0x0A66 <= c <= 0x0A6F then Some(c - 0x0A66)
    else if 0x0AE6 <= c <= 0x0AEF then Some(c - 0x0AE6)
    else if 0x0B66 <= c <= 0x0B6F then Some(c - 0x0B66)
    else if 0x0BE6 <= c <= 0x0BEF then Some(c - 0x0BE6)
    else if 0x0C66 <= c <= 0x0C6F then Some(c - 0x0C66)
    else if 0x0CE6 <= c <= 0x0CEF then Some(c - 0x0CE6)
    else if 0x0D66 <= c <= 0x0D6F then Some(c - 0x0D66)
    else if 0x0DE6 <= c <= 0x0DEF then Some(c - 0x0DE6)
    else if 0x0E50 <= c <= 0x0E59 then Some(c - 0x0E50)
    else if 0x0ED0 <= c <= 0x0ED9 then Some(c - 0x0ED0)
    else if 0x0F20 <= c <= 0x0F29 then Some(c - 0x0F20)
    else if 0x1040 <= c <= 0x1049 then Some(c - 0x1040)
    else if 0x1090 <= c <= 0x1099 then Some(c - 0x1090)
    else if 0x17E0 <= c <= 0x17E9 then Some(c - 0x17E0)
    else if 0x1810 <= c <= 0x1819 then Some(c - 0x1810)
    else if 0x1946 <= c <= 0x194F then Some(c - 0x1946)
    else if 0x19D0 <= c <= 0x19D9 then Some(c - 0x19D0)
    else if 0x1A80 <= c <= 0x1A89 then Some(c - 0x1A80)
    else if 0x1A90 <= c <= 0x1A99 then Some(c - 0x1A90)
    else if 0x1B50 <= c <= 0x1B59 then Some(c - 0x1B50)
    else if 0x1BB0 <= c <= 0x1BB9 then Some(c - 0x1BB0)
    else if 0x1C40 <= c <= 0x1C49 then Some(c - 0x1C40)
    else if 0x1C50 <= c <= 0x1C59 then Some(c - 0x1C50)
    else if 0xA620 <= c <= 0xA629 then Some(c - 0xA620)
    else if 0xA8D0 <= c <= 0xA8D9 then Some(c - 0xA8D0)
    else if 0xA900 <= c <= 0xA909 then Some(c - 0xA900)
    else if 0xA9D0 <= c <= 0xA9D9 then Some(c - 0xA9D0)
    else if 0xA9F0 <= c <= 0xA9F9 then Some(c - 0xA9F0)
    else if 0xAA50 <= c <= 0xAA59 then Some(c - 0xAA50)
    else if 0xABF0 <= c <= 0xABF9 then Some(c - 0xABF0)
    else if 0xFF10 <= c <= 0xFF19 then Some(c - 0xFF10)
    else None
  }

  /**
   * `Character.digit(c, 16)`: a decimal digit of any script, or one of the
   * letters a to f in either case, in ASCII or in fullwidth form.
   */
  function HexValue(c: JChar): (r: Option<int>)
    ensures r.Some? ==> 0 <= r.value < 16
  {
    if 0x30 <= c <= 0x39 then Some(c - 0x30)
    else if 0x61 <= c <= 0x66 then Some(c - 0x61 + 10)
    else if 0x41 <= c <= 0x46 then Some(c - 0x41 + 10)
    else if 0xFF41 <= c <= 0xFF46 then Some(c - 0xFF41 + 10)
    else if 0xFF21 <= c <= 0xFF26 then Some(c - 0xFF21 + 10)
    else DecimalDigit(c)
  }

  /** The value of a run of hexadecimal digits. */
  function HexDigitsValue(s: JString): (r: Option<nat>)
  {
    if s == [] then Some(0)
    else
      match (HexDigitsValue(s[..|s| - 1]), HexValue(s[|s| - 1]))
      case (Some(v), Some(d)) => Some(v * 16 + d)
      case _ => None
  }

  /**
   * `Integer.parseInt(s, 16)` on the four characters the scanners hand it:
   * an optional sign, then at least one digit. Four digits cannot overflow.
   */
  function ParseHex(s: JString): (r: Option<int>)
    requires |s| <= 4
  {
    if s == [] then None
    else if s[0] == 0x2D || s[0] == 0x2B then
      if |s| == 1 then None
      else
        match HexDigitsValue(s[1..])
        case None => None
        case Some(v) => Some(if s[0] == 0x2D then 0 - v as int else v)
    else
      match HexDigitsValue(s)
      case None => None
      case Some(v) => Some(v)
  }

  /** The message of the `NumberFormatException` that `parseInt` throws. */
  function NumberFormatMessage(s: JString): JString {
    J("For input string: ") + Quoted(s) + J(" under radix 16")
  }

  /** `%04x` is read back by `parseInt(…, 16)`. */
  lemma ParseHex4(c: JChar)
    ensures ParseHex(Hex4(c)) == Some(c)
  {
    var q := c / 16;
    var q' := q / 16;
    var d0, d1, d2, d3 := q' / 16, q' % 16, q % 16, c % 16;
    var h0: JString := [];
    var h1 := h0 + [HexDigit(d0)];
    var h2 := h1 + [HexDigit(d1)];
    var h3 := h2 + [HexDigit(d2)];
    var h4 := h3 + [HexDigit(d3)];
    HexDigitsSnoc(h0, 0, d0);
    HexDigitsSnoc(h1, d0, d1);
    HexDigitsSnoc(h2, d0 * 16 + d1, d2);
    HexDigitsSnoc(h3, (d0 * 16 + d1) * 16 + d2, d3);
    assert Hex4(c) == h4;
    HexDigitValue(d0);
  }

  lemma HexDigitsSnoc(s: JString, v: nat, d: int)
    requires HexDigitsValue(s) == Some(v) && 0 <= d < 16
    ensures HexDigitsValue(s + [HexDigit(d)]) == Some(v * 16 + d)
  {
    assert (s + [HexDigit(d)])[..|s|] == s;
    HexDigitValue(d);
  }

  lemma HexDigitValue(d: int)
    requires 0 <= d < 16
    ensures HexValue(HexDigit(d)) == Some(d) && HexDigit(d) != 0x2D && HexDigit(d) != 0x2B
  {
  }

  /** Digits of other scripts and fullwidth letters are hexadecimal digits too. */
  lemma HexValueOtherScripts()
    ensures HexValue(0x0660) == Some(0) && HexValue(0x0664) == Some(4) && HexValue(0x0661) == Some(1)
    ensures HexValue(0x0967) == Some(1)
    ensures HexValue(0xFF10) == Some(0) && HexValue(0xFF14) == Some(4)
    ensures HexValue(0xFF21) == Some(10) && HexValue(0xFF46) == Some(15)
    ensures HexValue(0x67) == None && HexValue(0x2D) == None
  {
  }

  /** `parseInt(…, 16)` reads Arabic-Indic digits: a `\u` escape may be written with them. */
  lemma ParseHexArabicIndic()
    ensures ParseHex([0x0660, 0x0660, 0x0664, 0x0661]) == Some(0x41)
  {
    var e: JString := [];
    var s1 := e + [0x0660];
    var s2 := s1 + [0x0660];
    var s3 := s2 + [0x0664];
    DigitsSnoc(e, 0, 0x0660, 0);
    DigitsSnoc(s1, 0, 0x0660, 0);
    DigitsSnoc(s2, 0, 0x0664, 4);
    DigitsSnoc(s3, 4, 0x0661, 1);
    assert s3 + [0x0661] == [0x0660, 0x0660, 0x0664, 0x0661];
  }

  /** Fullwidth digits and letters are read as well. */
  lemma ParseHexFullwidth()
    ensures ParseHex([0xFF10, 0xFF10, 0xFF14, 0xFF21]) == Some(0x4A)
  {
    var e: JString := [];
    var s1 := e + [0xFF10];
    var s2 := s1 + [0xFF10];
    var s3 := s2 + [0xFF14];
    DigitsSnoc(e, 0, 0xFF10, 0);
    DigitsSnoc(s1, 0, 0xFF10, 0);
    DigitsSnoc(s2, 0, 0xFF14, 4);
    DigitsSnoc(s3, 4, 0xFF21, 10);
    assert s3 + [0xFF21] == [0xFF10, 0xFF10, 0xFF14, 0xFF21];
  }

  /** A sign and digits of different scripts mix: `-१ｆ0` is minus 0x1F0. */
  lemma ParseHexMixed()
    ensures ParseHex([0x2D, 0x0967, 0xFF46, 0x30]) == Some(-0x1F0)
  {
    var e: JString := [];
    var s1 := e + [0x0967];
    var s2 := s1 + [0xFF46];
    DigitsSnoc(e, 0, 0x0967, 1);
    DigitsSnoc(s1, 1, 0xFF46, 15);
    DigitsSnoc(s2, 0x1F, 0x30, 0);
    var signed: JString := [0x2D, 0x0967, 0xFF46, 0x30];
    assert signed[1..] == s2 + [0x30];
  }

  /** A letter past `f` is no digit, so `parseInt` throws. */
  lemma ParseHexRejects()
    ensures ParseHex([0x30, 0x30, 0x34, 0x67]) == None
  {
    NotDigitSnoc([0x30, 0x30, 0x34], 0x67);
    assert [0x30, 0x30, 0x34] + [0x67] == [0x30, 0x30, 0x34, 0x67];
  }

  /** One more digit of any script: the value is shifted and the digit added. */
  lemma DigitsSnoc(s: JString, v: nat, c: JChar, d: int)
    requires HexDigitsValue(s) == Some(v) && HexValue(c) == Some(d)
    ensures HexDigitsValue(s + [c]) == Some(v * 16 + d)
  {
    assert (s + [c])[..|s|] == s;
  }

  /** A character that is no digit spoils the run. */
  lemma NotDigitSnoc(s: JString, c: JChar)
    requires HexValue(c) == None
    ensures HexDigitsValue(s + [c]) == None
  {
    assert (s + [c])[..|s|] == s;
  }


  /** How the scanner reads the character after a backslash (all but `u`). */
  function Unescape(e: JChar): JChar {
    if e == QUOTE then QUOTE
    else if e == BACKSLASH then BACKSLASH
    else if e == 0x6E then LF            // n
    else if e == 0x72 then CR            // r
    else if e == 0x74 then 0x09          // t
    else if e == 0x62 then 0x08          // b
    else if e == 0x66 then 0x0C          // f
    else e
  }

  /**
   * The decoding loop of `extractStringField`, from just after the opening
   * quote: it stops at a quote or at the end of the text. A backslash that
   * is the last character is kept; `\u` without four more characters
   * yields nothing; `(char)` keeps the low 16 bits of the parsed value.
   */
  function Decode(t: JString): (r: Extracted)
    ensures !r.Absent?
    decreases |t|
  {
    if t == [] || t[0] == QUOTE then Found([])
    else if t[0] == BACKSLASH && |t| > 1 then
      if t[1] == 0x75 then
        if |t| > 5 then
          match ParseHex(t[2..6])
          case None => Threw(t[2..6])
          case Some(v) => Prepend([v % 0x1_0000], Decode(t[6..]))
        else Decode(t[2..])
      else Prepend([Unescape(t[1])], Decode(t[2..]))
    else Prepend([t[0]], Decode(t[1..]))
  }

  /** The loop that skips white space and colons after the key. */
  function SkipColons(t: JString): (r: JString)
    ensures |r| <= |t|
    ensures r == [] || (r[0] != SPACE && r[0] != COLON)
  {
    if t != [] && (t[0] == SPACE || t[0] == COLON) then SkipColons(t[1..]) else t
  }

  /** The value after a key: null unless, past the colon, a string starts. */
  function ValueAt(t: JString): Extracted {
    var u := SkipColons(t);
    if u == [] || u[0] != QUOTE then Absent else Decode(u[1..])
  }

  /** `extractStringField(json, name)`. */
  function FieldOf(json: JString, name: JString): Extracted {
    var p := Quoted(name);
    var idx := IndexOfSeq(json, p);
    if idx < 0 then Absent else ValueAt(json[idx + |p|..])
  }

  /** `extractStringField`. */
  method ExtractStringField(json: JString, fieldName: JString) returns (r: Extracted)
    ensures r == FieldOf(json, fieldName)
  {
    var pattern := Quoted(fieldName);
    var idx := IndexOfSeq(json, pattern);
    if idx < 0 {
      return Absent;
    }
    FieldOfFound(json, fieldName, idx);
    r := ValueLoop(json, idx + |pattern|);
  }

  /** `extractStringField` once the key has been passed. */
  method ValueLoop(json: JString, start: nat) returns (r: Extracted)
    requires start <= |json|
    ensures r == ValueAt(json[start..])
  {
    var idx := SkipColonsLoop(json, start);
    ValueAtSkipped(json, start, idx);
    if idx >= |json| || json[idx] != QUOTE {
      return Absent;
    }
    r := DecodeLoop(json, idx + 1);
  }

  /** Where a found key leaves the field scanner. */
  lemma FieldOfFound(json: JString, name: JString, n: nat)
    requires IndexOfSeq(json, Quoted(name)) == n
    ensures FieldOf(json, name) == ValueAt(json[n + |name| + 2..])
  {
  }

  lemma ValueAtSkipped(json: JString, after: nat, idx: nat)
    requires after <= |json| && idx <= |json| && json[idx..] == SkipColons(json[after..])
    ensures idx >= |json| || json[idx] != QUOTE ==> ValueAt(json[after..]) == Absent
    ensures idx < |json| && json[idx] == QUOTE ==> ValueAt(json[after..]) == Decode(json[idx + 1..])
  {
    if idx < |json| {
      assert json[idx..][0] == json[idx];
      assert json[idx..][1..] == json[idx + 1..];
    }
  }

  /** The first loop of `extractStringField`: past spaces and colons. */
  method SkipColonsLoop(json: JString, start: nat) returns (idx: nat)
    requires start <= |json|
    ensures idx <= |json| && json[idx..] == SkipColons(json[start..])
  {
    idx := start;
    while idx < |json| && (json[idx] == SPACE || json[idx] == COLON)
      invariant start <= idx <= |json|
      invariant SkipColons(json[start..]) == SkipColons(json[idx..])
    {
      assert json[idx..][1..] == json[idx + 1..];
      idx := idx + 1;
    }
  }

  /** The second loop of `extractStringField`, building the value in `sb`. */
  method DecodeLoop(json: JString, start: nat) returns (r: Extracted)
    requires start <= |json|
    ensures r == Decode(json[start..])
  {
    var sb: JString := [];
    var idx := start;
    while idx < |json|
      invariant start <= idx <= |json|
      invariant Decode(json[start..]) == Prepend(sb, Decode(json[idx..]))
    {
      if json[idx] == QUOTE {
        break;
      }
      var round := DecodeRound(json, idx);
      if round.Failed? {
        return Threw(round.input);
      }
      PrependTwice(sb, round.text, Decode(json[idx + round.width..]));
      sb, idx := sb + round.text, idx + round.width;
    }
    r := Found(sb);
    assert idx < |json| ==> json[idx..][0] == QUOTE;
  }

  /** What one round of the decoding loop does. */
  datatype Round = Appended(text: JString, width: nat) | Failed(input: JString)

  /**
   * One round of the decoding loop at a character that is not a quote: the
   * text appended to `sb` and how far `idx` moves (the source advances it
   * once for the backslash, four times over the hex digits, and once at the
   * end of the round), or the exception `parseInt` throws.
   */
  method DecodeRound(json: JString, idx: nat) returns (round: Round)
    requires idx < |json| && json[idx] != QUOTE
    ensures round.Appended? ==>
      && 0 < round.width && idx + round.width <= |json|
      && Decode(json[idx..]) == Prepend(round.text, Decode(json[idx + round.width..]))
    ensures round.Failed? ==> Decode(json[idx..]) == Threw(round.input)
  {
    var c := json[idx];
    if c == BACKSLASH && idx + 1 < |json| {
      var escaped := json[idx + 1];
      if escaped == 0x75 {
        if idx + 5 < |json| {
          var hex := json[idx + 2..idx + 6];
          DecodeUnicodeAt(json, idx);
          var parsed := ParseHex(hex);
          if parsed.None? {
            return Failed(hex);
          }
          round := Appended([parsed.value % 0x1_0000], 6);
        } else {
          DecodeShortUnicodeAt(json, idx);
          round := Appended([], 2);
        }
      } else {
        DecodeEscapeAt(json, idx);
        round := Appended([Unescape(escaped)], 2);
      }
    } else {
      DecodePlainAt(json, idx);
      round := Appended([c], 1);
    }
  }

  /** Prepending `[]` changes nothing. */
  lemma PrependNothing(r: Extracted)
    ensures Prepend([], r) == r
  {
    if r.Found? {
      assert [] + r.value == r.value;
    }
  }

  lemma DecodeUnicodeAt(json: JString, idx: nat)
    requires idx + 5 < |json| && json[idx] == BACKSLASH && json[idx + 1] == 0x75
    ensures ParseHex(json[idx + 2..idx + 6]).None? ==>
              Decode(json[idx..]) == Threw(json[idx + 2..idx + 6])
    ensures ParseHex(json[idx + 2..idx + 6]).Some? ==>
              Decode(json[idx..]) ==
              Prepend([ParseHex(json[idx + 2..idx + 6]).value % 0x1_0000], Decode(json[idx + 6..]))
  {
    var t := json[idx..];
    assert t[2..6] == json[idx + 2..idx + 6];
    assert t[6..] == json[idx + 6..];
  }

  lemma DecodeShortUnicodeAt(json: JString, idx: nat)
    requires idx + 1 < |json| <= idx + 5 && json[idx] == BACKSLASH && json[idx + 1] == 0x75
    ensures Decode(json[idx..]) == Prepend([], Decode(json[idx + 2..]))
  {
    assert json[idx..][2..] == json[idx + 2..];
    PrependNothing(Decode(json[idx + 2..]));
  }

  lemma DecodeEscapeAt(json: JString, idx: nat)
    requires idx + 1 < |json| && json[idx] == BACKSLASH && json[idx + 1] != 0x75
    ensures Decode(json[idx..]) == Prepend([Unescape(json[idx + 1])], Decode(json[idx + 2..]))
  {
    assert json[idx..][2..] == json[idx + 2..];
  }

  lemma DecodePlainAt(json: JString, idx: nat)
    requires idx < |json| && json[idx] != QUOTE && !(json[idx] == BACKSLASH && idx + 1 < |json|)
    ensures Decode(json[idx..]) == Prepend([json[idx]], Decode(json[idx + 1..]))
  {
    assert json[idx..][1..] == json[idx + 1..];
  }

  lemma PrependTwice(a: JString, b: JString, r: Extracted)
    ensures Prepend(a, Prepend(b, r)) == Prepend(a + b, r)
  {
    if r.Found? {
      assert a + (b + r.value) == (a + b) + r.value;
    }
  }
  // ---------------------------------------------------------------------------
  // The field scanner reads back what jsonString wrote
  // ---------------------------------------------------------------------------

  /** One code unit written by `jsonString` is decoded back to itself. */
  lemma DecodeChar(c: JChar, rest: JString)
    ensures Decode(EscapeChar(c) + rest) == Prepend([c], Decode(rest))
  {
    if c == QUOTE || c == BACKSLASH || c == 0x08 || c == 0x0C || c == LF || c == CR || c == 0x09 {
      DecodeNamed(c, rest);
    } else if c < 0x20 {
      DecodeControl(c, rest);
    } else {
      assert EscapeChar(c) == [c];
      DecodeSingle(c, rest);
    }
  }

  lemma DecodeNamed(c: JChar, rest: JString)
    requires c == QUOTE || c == BACKSLASH || c == 0x08 || c == 0x0C || c == LF || c == CR || c == 0x09
    ensures Decode(EscapeChar(c) + rest) == Prepend([c], Decode(rest))
  {
    var e := EscapeChar(c)[1];
    assert EscapeChar(c) == [BACKSLASH, e];
    DecodePair(e, rest);
  }

  lemma DecodeControl(c: JChar, rest: JString)
    requires c < 0x20 && !(c == 0x08 || c == 0x0C || c == LF || c == CR || c == 0x09)
    ensures Decode(EscapeChar(c) + rest) == Prepend([c], Decode(rest))
  {
    ParseHex4(c);
    DecodeUnicodeText(EscapeChar(c), Hex4(c), c, rest);
  }

  lemma DecodeSingle(c: JChar, rest: JString)
    requires c != QUOTE && c != BACKSLASH
    ensures Decode([c] + rest) == Prepend([c], Decode(rest))
  {
    assert ([c] + rest)[1..] == rest;
  }

  lemma DecodePair(e: JChar, rest: JString)
    requires e != 0x75
    ensures Decode([BACKSLASH, e] + rest) == Prepend([Unescape(e)], Decode(rest))
  {
    assert ([BACKSLASH, e] + rest)[2..] == rest;
  }

  lemma DecodeUnicodeText(e: JString, h: JString, c: JChar, rest: JString)
    requires |h| == 4 && ParseHex(h) == Some(c as int) && e == [BACKSLASH, 0x75] + h
    ensures Decode(e + rest) == Prepend([c], Decode(rest))
  {
    var t := e + rest;
    assert t[0] == BACKSLASH && t[1] == 0x75 && |t| >= 6;
    assert t[2..6] == h;
    assert t[6..] == rest;
    DecodeUnicodeAt(t, 0);
    assert t[0..] == t;
    assert (c as int) % 0x1_0000 == c as int;
  }

  /** Escaped text is decoded back to the original, whatever follows it. */
  lemma {:induction false} DecodeEscaped(v: JString, rest: JString)
    ensures Decode(Escaped(v) + rest) == Prepend(v, Decode(rest))
  {
    if v == [] {
      assert Escaped(v) + rest == rest;
      PrependNothing(Decode(rest));
    } else {
      var tail := Escaped(v[1..]) + rest;
      assert Escaped(v) + rest == EscapeChar(v[0]) + tail;
      DecodeChar(v[0], tail);
      DecodeEscaped(v[1..], rest);
      PrependTwice([v[0]], v[1..], Decode(rest));
      assert [v[0]] + v[1..] == v;
    }
  }

  /** A JSON string followed by anything is read back as its value. */
  lemma DecodeString(v: JString, rest: JString)
    ensures Decode(Escaped(v) + ([QUOTE] + rest)) == Found(v)
  {
    DecodeEscaped(v, [QUOTE] + rest);
    assert v + [] == v;
  }

  lemma QuotedTail(b: JString, rest: JString)
    ensures (Quoted(b) + rest)[0] == QUOTE
    ensures (Quoted(b) + rest)[1..] == b + ([QUOTE] + rest)
  {
    var t := Quoted(b) + rest;
    assert forall i | 0 <= i < |b| :: t[1..][i] == b[i];
    assert t[1..][|b|..] == [QUOTE] + rest;
    assert t[1..] == t[1..][..|b|] + t[1..][|b|..];
  }

  /** What `extractStringField` reads after `"key":`: the value written by `jsonString`, or null for `null`. */
  lemma ValueAtJson(v: Option<JString>, sep: JString, ps: seq<Piece>)
    ensures ValueAt([COLON] + Render(Val(v, sep) + ps)) == (if v.Some? then Found(v.value) else Absent)
  {
    var rest := sep + Render(ps);
    var u := JsonText(v) + rest;
    RenderPair(JsonPiece(v), sep, ps);
    ValueAfterColon(u);
    if v.Some? {
      assert u == Quoted(Escaped(v.value)) + rest;
      QuotedTail(Escaped(v.value), rest);
      DecodeString(v.value, rest);
    } else {
      assert u[0] == J("null")[0] != QUOTE;
    }
  }

  lemma ValueAfterColon(u: JString)
    ensures ValueAt([COLON] + u) == ValueAt(u)
  {
    assert ([COLON] + u)[1..] == u;
  }
}
